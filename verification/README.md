# A verified model of the communication library

A Dafny model of the parts of the MultiversX communication library (Go) whose correctness does
not show from reading one function, with proofs of what they promise. `dafny verify
dfyconfig.toml` checks everything.

| files | what they model |
|---|---|
| `Bits`, `Wire`, `Records`, `RecordLaws`, `UnknownFields`, `Writing`, `Decoding`, `Language` | the protobuf wire format as the generated code reads and writes it: varints, length-delimited records, groups, unknown-field skipping |
| `TopicMessage`, `WsMessage` | the two generated codecs: sizes, backward writing into a buffer, the decoding loop over an object's fields |
| `Envelope` | the envelope a sender puts around a topic message and the receiver's checks |
| `Transceiver`, `AckProtocol`, `AckSafety` | the WebSocket transceiver as an object, and two of them as a step system over a faulty connection |
| `LoadBalancer`, `Forwarders` | the outgoing channel load balancer as an object, and its forwarder goroutines as a step system |
| `Distances`, `BitCounts`, `Eviction`, `ListsSharder`, `SharderLaws`, `OneListSharder`, `Admission` | XOR distances, farthest-first eviction, slot allocation, and the admission check that has to agree with it |
| `Rating` | the two rating caches |
| `PeersHolder` | the preferred peers holder with its four cross-linked maps |

Loops and objects of the source are methods and classes here, proved against functions; the laws
are lemmas about those functions. The two protocols are step systems, and their safety theorems
hold for every run. The objects and the step systems share the functions that say how the
acknowledge table changes (`Drawn`, `Acked`), which payloads are answered (`OwesAck`), what bytes
are written, and when the balancer's tables are in step (`InStep`).

Conventions:

- Integers are unbounded in Dafny; the source's widths are written out (`% TWO_64`, `ToInt32`,
  `AsInt`). Buffers of 2^63 bytes or more do not exist in Go, which is the only reason for the
  bounds `< TWO_63`.
- A nil slice and an empty one are the same, as the generated `Equal` treats them. A Go string
  is held as its bytes.
- The clock, the originator parser, the peer resolver, the seeder and preferred tests, the peer
  distance and the entries a cache drops are parameters.
- `sort.Sort` is free to order ties as it likes, so the laws of eviction hold for every sorted
  outcome; the method that is proved to produce one sorts by `Less` and `Swap` in place.

## What the proofs found

- Timestamps: the comment on `validateMessageByTimestamp` (p2p/libp2p/messagesHandler.go:460-461)
  gives the lower end of the window as now - 600 s + 20 s and leaves both ends out; the code
  accepts from now - 600 s to now + 20 s, ends included. The model follows the code.
- Direct sends: a payload that passes `checkSendableData` can still be refused by the direct
  sender, because the envelope is added between the two checks. `DirectSendExactly` gives the
  exact condition and `LargestPayloadRefused` a family for which it fails.
- Admission: it agrees with eviction except for ties. `VerdictsExactly` and `DisagreementExactly`
  give the exact condition in terms of the peers and the limits: the candidate fits among those
  kept of its class together with the nearer ones, and does not fit together with all it ties.
  `DisagreementHappens` is a concrete case with two seeders that are already connected. A new
  candidate is listed last, so it is concerned only where the sort reorders ties
  (`NewCandidateIsSafe`).
- Acknowledgements: `Send` can return nil although the handler failed if and only if the receiving
  side does not have `blockingAckOnError` (`BlockingIsExact`).
- Preferred peers: `Remove` does not rewrite the indices of the peers behind the removed one.
  `RemoveAgreesExactly` says when that is harmless. Otherwise a later `Remove` of a peer behind
  cuts the entry after its own, or panics when it is the last (`SecondRemove`); both are reachable
  from every fresh holder (`WrongCutIsReachable`, `PanicIsReachable`).
- Preferred peers with two addresses: `Remove` clears only the recorded address, so a peer that is
  also listed under another one is ignored when it comes back over that one
  (`TakenUpAgainExactly`, `IgnoredIsReachable`).

## Model

| member | source | states |
|---|---|---|
| `Wire.SovIsLength` | p2p/data/topicMessage.pb.go:276-278 | the bit-length formula for the size of a varint gives exactly the number of seven-bit groups, for every number |
| `Wire.Uint64Length` | p2p/data/topicMessage.pb.go:238-248 | every 64-bit value takes at most ten bytes |
| `Wire.VarintRoundTrip` | p2p/data/topicMessage.pb.go:310-323 | reading a written varint returns its value and stops exactly at its end, whatever follows |
| `BitCounts.VarintDigits` | p2p/data/topicMessage.pb.go:241-246 | byte i of a varint is seven bits of the value, lowest group first, with the flag on all but the last byte |
| `Wire.VarintPrefix` | p2p/data/topicMessage.pb.go:310-323 | a varint that ends inside a buffer is read the same whatever is appended |
| `Wire.GatherOne` | p2p/data/topicMessage.pb.go:317-322 | one turn of the shift-and-or loop adds the next seven-bit group at its weight, and a byte below 128 closes the sum |
| `Wire.ReadVarint` | p2p/data/topicMessage.pb.go:310-323 | the shift-and-or loop, into a 32-bit or 64-bit accumulator, computes the sum of the groups modulo the width; end of buffer and too many bytes give the two errors; it never reads past the buffer |
| `Wire.EncodeVarint` | p2p/data/topicMessage.pb.go:238-248 | fills exactly the computed number of bytes that end at the given offset with the varint, touches nothing else, and returns the first index |
| `Records.ElementAt` | p2p/data/topicMessage.pb.go:503-568 | an element that is skipped without an error takes at least one byte |
| `Records.SkipFrom` | p2p/data/topicMessage.pb.go:497-574 | a successful skip consumes at least one byte and ends at an index that fits an int |
| `Records.ReadElement` | p2p/data/topicMessage.pb.go:503-565 | one turn of the skip loop: tag, wire type and group depth, with each error |
| `Records.SkipField` | p2p/data/topicMessage.pb.go:497-574 | the skip loop over positions and depth agrees with the recursive specification on every byte string and returns at least 1 on success |
| `Records.RecordAt` | p2p/data/topicMessage.pb.go:308-490 | a record read without an error advances by at least one byte and stays inside the buffer, which is why the decoding loop terminates |
| `Records.ReadLength` | p2p/data/topicMessage.pb.go:356-382 | length, overflow and bounds checks of a bytes field: the slice taken is inside the buffer and is the specified one |
| `Records.SkipUnknown` | p2p/data/topicMessage.pb.go:473-489 | the default branch resumes after the skipped record or returns the specified error |
| `RecordLaws.SkipPrefix` | p2p/data/topicMessage.pb.go:497-574 | a skip that succeeds gives the same answer whatever follows |
| `RecordLaws.SkipField` | p2p/data/topicMessage.pb.go:497-574 | skipping a well-formed field of any wire type, with arbitrarily nested groups and overlong varints, leaves the depth alone and stops exactly at its end |
| `RecordLaws.MinimalBytes` | p2p/data/topicMessage.pb.go:238-248 | the bytes the encoder writes for a tag or a value are among the varints that well-formed fields are made of |
| `RecordLaws.RecordPrefix` | p2p/data/topicMessage.pb.go:308-490 | a record that ends inside a buffer is read the same whatever is appended |
| `RecordLaws.ParseConcat` | p2p/data/topicMessage.pb.go:304-496 | the records of a concatenation are the records of its parts in turn |
| `RecordLaws.ParseAnywhere` | p2p/data/topicMessage.pb.go:304-496 | shifting a buffer does not change what is read from it |
| `RecordLaws.RecordRoundTrip` | p2p/data/topicMessage.pb.go:199-236 | reading one written record gives it back and stops at its end |
| `RecordLaws.ParseRoundTrip` | p2p/data/topicMessage.pb.go:304-496 | the decoder inverts the encoder for every list of records |
| `RecordLaws.UnknownFieldIsSkipped` | p2p/data/topicMessage.pb.go:473-489 | a well-formed field whose number the message does not use is read as no effect, over exactly its own bytes |
| `RecordLaws.InsertSilent` | p2p/data/topicMessage.pb.go:304-496 | inserting any bytes that decode without an error and without an effect after any decodable prefix adds records without effect and changes no other |
| `UnknownFields.SilentExactly` | p2p/data/topicMessage.pb.go:473-574 | the decoder reads bytes without an error and without an effect if and only if they are a sequence of well-formed fields with numbers the message does not use |
| `Language.FieldsAreRead` | p2p/data/topicMessage.pb.go:304-496 | a sequence of acceptable fields (well formed, numbers positive, known numbers with the wire type of their kind) is read without an error, each field with its own effect, in order |
| `Language.AcceptedExactly` | p2p/data/topicMessage.pb.go:304-496 | the decoder accepts a byte string if and only if it is such a sequence |
| `Language.DecodedMeaning` | p2p/data/topicMessage.pb.go:304-496 | and then the decoded message is the fold of the effects of the fields |
| `Language.VarintErrors` | p2p/data/topicMessage.pb.go:310-323 | a varint is refused as an overflow exactly when ten bytes ask for a next one, and for the end of the buffer exactly when fewer do |
| `Language.RefusedTags` | p2p/data/topicMessage.pb.go:326-335 | a complete tag is refused for an end group, an illegal number or a wrong wire type exactly in those cases, and an unknown field for wire types 6 and 7 |
| `Language.RefusedLengths` | p2p/data/topicMessage.pb.go:356-382 | a known bytes field is refused for its length exactly when an index would overflow, and for the end of the buffer exactly when that comes first |
| `Language.RefusedUnknownLengths` | p2p/data/topicMessage.pb.go:534-568 | the same for a bytes field the message does not know |
| `Language.RefusedSkips` | p2p/data/topicMessage.pb.go:554-573 | a skip refuses an end of group outside groups, wire types 6 and 7, and an empty buffer, each as such |
| `RecordLaws.InsertUnknown` | p2p/data/topicMessage.pb.go:473-489 | inserting such a field after any decodable prefix adds one record without effect and changes no other |
| `Decoding.DecodeConcat` | p2p/data/topicMessage.pb.go:304-496 | decoding a concatenation is decoding the second part into the result of the first |
| `Decoding.SilentBytesIgnored` | p2p/data/topicMessage.pb.go:304-496 | such bytes after any decodable prefix change neither the message nor whether decoding succeeds |
| `Decoding.UnknownFieldIgnored` | p2p/data/topicMessage.pb.go:473-489 | an unknown field after any decodable prefix changes neither the message nor whether decoding succeeds |
| `Decoding.UnknownFieldBetween` | p2p/data/topicMessage.pb.go:473-489 | it may stand between any two records of an encoding |
| `Writing.ItemSize` | p2p/data/topicMessage.pb.go:249-274 | the size computed for one present field is the number of bytes written for it |
| `Writing.PutBlob` | p2p/data/topicMessage.pb.go:223-229 | writes a bytes field backwards in front of what is already written, or nothing when it is empty |
| `Writing.PutScalar` | p2p/data/topicMessage.pb.go:218-222 | writes a varint field backwards in front of what is already written, or nothing when it is zero |
| `TopicCodec.SizeIsExact` | p2p/data/topicMessage.pb.go:249-274 | Size is the exact length of the encoding |
| `TopicCodec.TimestampRoundTrip` | p2p/data/topicMessage.pb.go:218-222 | a negative timestamp survives the conversion to uint64 and back |
| `TopicCodec.FieldsRebuild` | p2p/data/topicMessage.pb.go:304-496 | applying the written records to a zeroed message rebuilds the message |
| `TopicCodec.WireLayout` | p2p/data/topicMessage.pb.go:199-236 | the encoding in literal tag bytes, field by field, zero values left out |
| `TopicCodec.DecodeInto` | p2p/data/topicMessage.pb.go:304-496 | Unmarshal of an encoding into any message replaces the fields that are on the wire and keeps the others |
| `TopicCodec.TornField` | p2p/data/topicMessage.pb.go:337-351 | a varint field whose value breaks off keeps the bits read so far, and the error is reported |
| `TopicCodec.RoundTrip` | p2p/data/topicMessage.pb.go:184-496 | Unmarshal of Marshal into a zeroed message succeeds and yields the message, for every message |
| `TopicCodec.UnknownFieldInvisible` | p2p/data/topicMessage.pb.go:473-489 | the same with a well-formed unknown field inserted between any two fields of the encoding |
| `TopicCodec.MarshalToSizedBuffer` | p2p/data/topicMessage.pb.go:199-236 | the backward writer fills exactly the last Size bytes of any large enough buffer with the encoding and leaves the rest alone |
| `TopicCodec.Marshal` | p2p/data/topicMessage.pb.go:184-192 | on a buffer of Size bytes the write index ends at 0: every byte is written |
| `TopicCodec.Message.UnmarshalField` | p2p/data/topicMessage.pb.go:308-490 | one turn of the decoding loop has exactly the effect, the error and the next index of the specified record |
| `TopicCodec.Message.Unmarshal` | p2p/data/topicMessage.pb.go:304-496 | on every byte string the loop terminates inside the buffer with the specified message and error; the check after it cannot fire |
| `WsCodec.SizeIsExact` | websocket/data/wsMessage.pb.go:278-305 | Size is the exact length of the encoding |
| `WsCodec.KindRoundTrip` | websocket/data/wsMessage.pb.go:244-248 | a negative int32 type is sign-extended to 64 bits and cut back to itself |
| `WsCodec.FieldsRebuild` | websocket/data/wsMessage.pb.go:336-531 | applying the written records to a zeroed message rebuilds the message |
| `WsCodec.WireLayout` | websocket/data/wsMessage.pb.go:220-265 | the encoding in literal tag bytes, field by field, zero values left out |
| `WsCodec.DecodeInto` | websocket/data/wsMessage.pb.go:336-531 | Unmarshal of an encoding into any message replaces the fields that are on the wire and keeps the others |
| `WsCodec.TornField` | websocket/data/wsMessage.pb.go:369-403 | a varint field whose value breaks off keeps the bits read so far, except for the bool, which is left as it was |
| `WsCodec.RoundTrip` | websocket/data/wsMessage.pb.go:205-531 | Unmarshal of Marshal into a zeroed message succeeds and yields the message, for every message |
| `WsCodec.UnknownFieldInvisible` | websocket/data/wsMessage.pb.go:508-524 | the same with a well-formed unknown field inserted between any two fields of the encoding |
| `WsCodec.MarshalToSizedBuffer` | websocket/data/wsMessage.pb.go:220-265 | the backward writer fills exactly the last Size bytes of any large enough buffer with the encoding and leaves the rest alone |
| `WsCodec.Marshal` | websocket/data/wsMessage.pb.go:205-213 | on a buffer of Size bytes every byte is written |
| `WsCodec.Message.UnmarshalField` | websocket/data/wsMessage.pb.go:340-525 | one turn of the decoding loop has exactly the effect, the error and the next index of the specified record; the bool is assigned only once its varint is complete |
| `WsCodec.Message.Unmarshal` | websocket/data/wsMessage.pb.go:336-531 | on every byte string the loop terminates inside the buffer with the specified message and error |
| `Envelope.SizeLimits` | p2p/libp2p/messagesHandler.go:293-302 | the two size checks and the pubsub limit in bytes, with the error for each side |
| `Envelope.EnvelopeOverhead` | p2p/libp2p/messagesHandler.go:639-653 | the exact size of the envelope of a sendable payload: at most 17 bytes more than the payload and below the pubsub limit |
| `Envelope.DirectSendFits` | p2p/libp2p/directSender.go:208 | every payload of at most maxSendBuffSize - 18 bytes also passes the direct sender |
| `Envelope.DirectSendExactly` | p2p/libp2p/directSender.go:208 | a sendable payload passes the direct sender if and only if its exact envelope stays below maxSendBuffSize |
| `Envelope.LargestPayloadRefused` | p2p/libp2p/messagesHandler.go:293-302 | a payload of exactly maxSendBuffSize bytes is sendable, yet its envelope is always refused by the direct sender |
| `Envelope.NewMessageExactly` | p2p/libp2p/message.go:39-65 | of any encoded message: accepted if and only if it has version 1, no pk, no signature and a valid originator, with its payload and timestamp; otherwise the first failing check names the error |
| `Envelope.RefusedBytes` | p2p/libp2p/message.go:22-43 | a missing message or topic, and exactly the bytes that are not a sequence of acceptable fields, are refused as such |
| `Envelope.EnvelopeRoundTrip` | p2p/libp2p/message.go:18-66 | given a valid originator, NewMessage recovers the exact payload and second and carries every other field over |
| `Envelope.TimeWindow` | p2p/libp2p/messagesHandler.go:462-477 | a stamp s is accepted at clock second r if and only if r - 600 <= s <= r + 20, and refused as too new or too old on its side of that |
| `Envelope.UnixRoundsDown` | p2p/libp2p/messagesHandler.go:463-470 | the second of a clock reading is the one it lies in, before 1970 too |
| `Envelope.AcceptedWithinSkew` | p2p/libp2p/messagesHandler.go:462-477 | end to end, the message is accepted if and only if the receiver is at most 20 s behind and 600 s ahead of the sender |
| `Transceiver.ClassifyEncoded` | websocket/transceiver/transceiver.go:121-141 | of any encoded message: type 1 is an acknowledgement of its counter, type 2 a payload, everything else is dropped |
| `Transceiver.MalformedExactly` | websocket/transceiver/transceiver.go:127-131 | bytes are dropped as malformed if and only if they are not a sequence of acceptable fields |
| `Transceiver.PayloadArrives` | websocket/transceiver/transceiver.go:121-150 | the receiver takes the bytes of a payload message for that message and no other |
| `Transceiver.AckArrives` | websocket/transceiver/transceiver.go:133-136 | the sender takes the bytes of an acknowledgement for the acknowledgement of that counter |
| `Transceiver.WsTransceiver.PrepareChanAndCounter` | websocket/transceiver/transceiver.go:225-237 | draws the next counter (wrapping at 2^64) and, with acknowledgement on, adds a new open channel under it and nothing else |
| `Transceiver.WsTransceiver.PrepareSend` | websocket/transceiver/transceiver.go:207-220 | Send up to the write: the bytes carry the payload, the topic, the version and the drawn counter |
| `Transceiver.WsTransceiver.HandleAckMessage` | websocket/transceiver/transceiver.go:152-164 | closes the channel of a pending counter and forgets it; every other channel stays open, and any other counter changes nothing |
| `Transceiver.WsTransceiver.VerifyPayload` | websocket/transceiver/transceiver.go:121-150 | an acknowledgement is prepared exactly for a payload message that asks for one and whose handler did not fail under blocking; only acknowledgements touch the table |
| `AckSafety.HandleAckKeeps` | websocket/transceiver/transceiver.go:152-164 | duplicate, late or unknown acknowledgements change nothing, and an acknowledgement changes nothing for any other counter |
| `AckSafety.GenuineClassified` | websocket/transceiver/transceiver.go:121-150 | whatever a peer wrote is classified by the other side as one of its sends or as an acknowledgement it owes |
| `AckSafety.StepKeeps` | websocket/transceiver/transceiver.go:121-264 | every step of either transceiver keeps the protocol invariant |
| `AckSafety.RunKeeps` | websocket/transceiver/transceiver.go:121-264 | the invariant holds in every state of every run, with messages lost, duplicated, delayed and reordered |
| `AckSafety.AckSafety` | websocket/transceiver/transceiver.go:207-264 | if Send returned nil with acknowledgement on, the other side ran ProcessPayload for the message with exactly that counter, on its payload, topic and version, and without an error if that side blocks on errors |
| `AckSafety.OwedExactly` | websocket/transceiver/transceiver.go:143-149 | in every reachable state an acknowledgement of a counter is owed if and only if the sender asks for them and a handler call for that counter succeeded, or failed on a receiver that does not block |
| `AckSafety.ReceiveExactly` | websocket/transceiver/transceiver.go:121-150 | taking in a message makes exactly one handler call with its contents and owes an acknowledgement exactly then; the own table is not touched |
| `AckSafety.SendCanSucceed` | websocket/transceiver/transceiver.go:121-264 | for every two set-ups with acknowledgement on, every payload, and every handler result other than a failure on a blocking receiver: a run in which the handler is called once and Send returns nil |
| `AckSafety.SendsExplained` | websocket/transceiver/transceiver.go:239-276 | in every reachable state a send has its status for a reason: a write error only after a failed write, the close error only after Close, and without acknowledgements it never waits |
| `AckSafety.WaitingCanEnd` | websocket/transceiver/transceiver.go:252-264 | a waiting send can always time out, end on close, and end with success once its acknowledgement was taken in |
| `AckSafety.OwnHandlerCalls` | websocket/transceiver/transceiver.go:207-264 | in every reachable state the successful sends map one to one into the handler calls, so equal payloads do not share a call |
| `AckSafety.TableExact` | websocket/transceiver/transceiver.go:152-164 | in every reachable state the table holds exactly the counters drawn and not acknowledged, and no channel was closed twice |
| `AckSafety.FailureCanBeAcknowledged` | websocket/transceiver/transceiver.go:143-149 | for every sender with acknowledgement on, every receiver that does not block, either side and every payload: a run in which Send returns nil although the only handler call failed |
| `AckSafety.BlockingIsExact` | websocket/transceiver/transceiver.go:143-149 | for every two set-ups with acknowledgement on, some run acknowledges a send whose handler calls all failed if and only if the receiver does not block on errors |
| `LoadBalancer.RemoveInStep` | p2p/libp2p/outgoingChannelLoadBalancer.go:116-129 | removing one index from both slices and its name from the map keeps the three tables in step, and the channel is gone |
| `LoadBalancer.OutgoingChannelLoadBalancer.AppendChannel` | p2p/libp2p/outgoingChannelLoadBalancer.go:53-57 | appends a new open channel under a new name |
| `LoadBalancer.OutgoingChannelLoadBalancer.AddChannel` | p2p/libp2p/outgoingChannelLoadBalancer.go:76-92 | adding a known name changes nothing, the default name is refused, a new name is appended; the tables stay in step |
| `LoadBalancer.OutgoingChannelLoadBalancer.RemoveChannel` | p2p/libp2p/outgoingChannelLoadBalancer.go:95-132 | removes the entry of the name from all three tables and closes its channel only; the default and unknown names are refused without a change |
| `LoadBalancer.OutgoingChannelLoadBalancer.GetChannelOrDefault` | p2p/libp2p/outgoingChannelLoadBalancer.go:135-145 | the channel at the index of the name, else the default one; never a closed channel |
| `Forwarders.StepKeeps` | p2p/libp2p/outgoingChannelLoadBalancer.go:53-155 | every step of the goroutines and of the table operations keeps the flow and table invariants |
| `Forwarders.RunKeeps` | p2p/libp2p/outgoingChannelLoadBalancer.go:53-155 | they hold in every state of every run |
| `Forwarders.NothingLostOrReordered` | p2p/libp2p/outgoingChannelLoadBalancer.go:59-72 | in every run, what was collected from a channel is a prefix of what it received, short of exactly the item its forwarder holds; nils come from removed channels only |
| `Forwarders.SentIsCollected` | p2p/libp2p/outgoingChannelLoadBalancer.go:53-155 | in every run the items sent on a channel are those collected from it and then the one its forwarder holds, with one collected object for each collection |
| `Forwarders.ListedOrClosed` | p2p/libp2p/outgoingChannelLoadBalancer.go:95-132 | in every run every channel ever made is either in the tables or closed, never both; forwarders return only after Close |
| `Forwarders.EndOfChannel` | p2p/libp2p/outgoingChannelLoadBalancer.go:59-72 | a removed channel goes on yielding nils; a forwarder that returned takes and gives nothing |
| `Forwarders.TablesInStep` | p2p/libp2p/outgoingChannelLoadBalancer.go:53-132 | in every run the names are distinct, the map agrees with the slices, and index 0 is the default channel |
| `BitCounts.DistanceIsCardinality` | p2p/libp2p/networksharding/listsSharder.go:328-339 | the bit-counting distance is the number of pairs of a byte and a bit position at which the keys differ |
| `Distances.CountSymmetric` | p2p/libp2p/networksharding/listsSharder.go:328-339 | the bit-counting distance is symmetric |
| `Distances.CountZero` | p2p/libp2p/networksharding/listsSharder.go:328-339 | it is zero if and only if the keys are equal |
| `Distances.CountTriangle` | p2p/libp2p/networksharding/listsSharder.go:328-339 | it satisfies the triangle inequality |
| `Distances.FirstDifferenceIsLog` | p2p/libp2p/networksharding/listsSharder.go:342-358 | scanning to the first differing byte gives the bit length of the big-endian XOR of the keys |
| `BitCounts.LogIsBracketed` | p2p/libp2p/networksharding/listsSharder.go:342-358 | the log2 distance d of two keys is the one with 2^(d-1) <= XOR < 2^d, and 0 for equal keys |
| `Distances.LogUltrametric` | p2p/libp2p/networksharding/listsSharder.go:342-358 | the log2 distance satisfies the ultrametric inequality |
| `Distances.CountAtMostLog` | p2p/libp2p/networksharding/listsSharder.go:328-358 | the bit-counting distance never exceeds the log2 distance, which is zero only for equal keys and at most the key length |
| `Distances.TableIsLeadingZeros` | p2p/libp2p/networksharding/listsSharder.go:34-67 | each of the 256 table entries is the number of leading zeros of its index |
| `Distances.ComputeDistanceByCountingBits` | p2p/libp2p/networksharding/listsSharder.go:328-339 | the loop counts the positions at which the keys differ |
| `Distances.ComputeDistanceLog2Based` | p2p/libp2p/networksharding/listsSharder.go:342-358 | the table-driven loop with its early exit computes the bit length of the XOR |
| `Eviction.FarthestFirst` | p2p/libp2p/networksharding/listsSharder.go:309-325 | kept and evicted are a permutation of the list, and no kept distance exceeds an evicted one |
| `Eviction.EvictionSize` | p2p/libp2p/networksharding/listsSharder.go:309-325 | exactly the excess over the bound is evicted, for negative bounds too |
| `Eviction.AscendingUnique` | p2p/libp2p/networksharding/sorting/peerDistances.go:25-27 | a multiset of distances has one ascending arrangement |
| `Eviction.OrderIndependent` | p2p/libp2p/networksharding/listsSharder.go:309-325 | the evicted distances do not depend on the input order or on how ties are sorted |
| `Eviction.RankDecides` | p2p/libp2p/networksharding/listsSharder.go:309-325 | an untied peer is evicted if and only if it does not fit within the bound together with the nearer ones |
| `Eviction.StrictlyNearerStays` | p2p/libp2p/networksharding/listsSharder.go:309-325 | a peer strictly nearer than every evicted one is evicted from no permutation of the list |
| `Eviction.TieGoesEitherWay` | p2p/libp2p/networksharding/listsSharder.go:309-325 | a kept peer that ties an evicted one may be evicted instead |
| `Eviction.SomeSortEvicts` | p2p/libp2p/networksharding/listsSharder.go:309-325 | some way of sorting ties evicts a peer if and only if more peers than are kept are at most as far |
| `Eviction.SomeSortKeeps` | p2p/libp2p/networksharding/listsSharder.go:309-325 | some way of sorting ties keeps a peer, as often as it is listed, if and only if it fits together with the nearer ones |
| `Eviction.LastIsSafe` | p2p/libp2p/networksharding/listsSharder.go:309-325 | if the last peer of a list is kept by a sort that keeps ties in order, all at most as far fit within the bound |
| `Eviction.Swap` | p2p/libp2p/networksharding/sorting/peerDistances.go:30-32 | exchanges two entries in place: a permutation |
| `Eviction.Sort` | p2p/libp2p/networksharding/listsSharder.go:317 | sorts in place by Less and Swap: an ascending permutation, which also keeps ties in order |
| `Eviction.Evict` | p2p/libp2p/networksharding/listsSharder.go:309-325 | returns the ids of the tail of a sorted list, or none when the bound covers the list |
| `ListsSharder.LimitsExactly` | p2p/libp2p/networksharding/listsSharder.go:113-183 | which configurations are accepted, in numbers, and which limit each of the six classes then gets |
| `ListsSharder.AllocationIsGreedy` | p2p/libp2p/networksharding/listsSharder.go:196-205 | the allocation is the only one in which no class keeps more than it has, no prefix of the chain more than its limits, and a class goes short only when its prefix is full |
| `ListsSharder.OwnLimitIsKept` | p2p/libp2p/networksharding/listsSharder.go:196-205 | every class keeps at least what fits its own limit |
| `ListsSharder.AllocationConserves` | p2p/libp2p/networksharding/listsSharder.go:160-230 | for every accepted configuration, slots kept plus the final spare equal the non-seeder limits, and the total never exceeds the target |
| `ListsSharder.AllocationIsStable` | p2p/libp2p/networksharding/listsSharder.go:196-205 | allocating again for what was kept keeps all of it |
| `ListsSharder.AllocationFits` | p2p/libp2p/networksharding/listsSharder.go:196-205 | whatever is at most what was kept, class by class, is kept in full |
| `ListsSharder.AllocationMonotone` | p2p/libp2p/networksharding/listsSharder.go:196-205 | one more peer takes zero or one more slot |
| `ListsSharder.AllocationIsCausal` | p2p/libp2p/networksharding/listsSharder.go:196-205 | the slots of a class depend only on classes at or before it in the chain |
| `ListsSharder.SplitPeerIds` | p2p/libp2p/networksharding/listsSharder.go:247-307 | which of the six lists a peer is in, if and only if for each, from the seeder test, the preferred peers, its type and its shard against that of the node; which peers are in none; and its distance to the node |
| `ListsSharder.ComputeEvictionList` | p2p/libp2p/networksharding/listsSharder.go:186-220 | the list is the concatenation of one farthest-first eviction per class, each with its allocated bound |
| `SharderLaws.MemberCount` | p2p/libp2p/networksharding/listsSharder.go:261-304 | each occurrence of a peer lands in the list of its class and in no other |
| `SharderLaws.ClassSplit` | p2p/libp2p/networksharding/listsSharder.go:186-220 | per class, kept and evicted are a permutation of the class and no kept distance exceeds an evicted one |
| `SharderLaws.EvictedAreListed` | p2p/libp2p/networksharding/listsSharder.go:186-220 | the whole eviction list is a sub-multiset of the input |
| `SharderLaws.EvictedWithinClass` | p2p/libp2p/networksharding/listsSharder.go:277-279 | a peer is evicted only within its class; preferred peers that are not seeders are never evicted |
| `SharderLaws.SlotConservation` | p2p/libp2p/networksharding/listsSharder.go:160-230 | kept peers number at most the target, kept seeders at most their limit, and kept non-seeders plus the final spare equal the sum of the non-seeder limits |
| `SharderLaws.EvictionIsCausal` | p2p/libp2p/networksharding/listsSharder.go:196-220 | the number evicted from a class depends only on the sizes of classes at or before it; seeders are independent |
| `SharderLaws.OneMorePeer` | p2p/libp2p/networksharding/listsSharder.go:186-220 | adding one peer anywhere raises the number evicted by zero or one |
| `SharderLaws.OrderDoesNotMatter` | p2p/libp2p/networksharding/listsSharder.go:186-220 | the evicted distances per class are the same for every input order |
| `SharderLaws.ListIsInOrder` | p2p/libp2p/networksharding/listsSharder.go:207-219 | the eviction list goes class by class, intra and cross validators, intra and cross observers, seeders, unknown, and from near to far within each |
| `SharderLaws.SurvivorsStay` | p2p/libp2p/networksharding/listsSharder.go:186-220 | running the sharder again on the survivors evicts nobody, for lists with repeated peers too |
| `Admission.Has` | p2p/libp2p/networksharding/listsSharder.go:237-245 | true if and only if the peer is in the list |
| `Admission.CanConnectToPeer` | p2p/libp2p/discovery/hostWithConnectionManagement.go:70-82 | accepts exactly when the eviction it computed over the connected peers plus the candidate spares the candidate |
| `Admission.RankInClass` | p2p/libp2p/discovery/hostWithConnectionManagement.go:70-82 | for an untied peer the verdict is its rank in its class against the allocated bound |
| `Admission.AdmittedIsNotEvicted` | p2p/libp2p/discovery/hostWithConnectionManagement.go:70-82 | an accepted peer that nobody of its class ties is evicted by no run of the sharder over the same peers in any order, duplicates included |
| `Admission.SafeWithoutEvictedTie` | p2p/libp2p/discovery/hostWithConnectionManagement.go:70-82 | the same under the weaker condition that no evicted peer of its class ties it |
| `Admission.EvictedTieIsUnsafe` | p2p/libp2p/discovery/hostWithConnectionManagement.go:70-82 | when an evicted peer of the class ties the accepted one, another outcome over the same list evicts the accepted one |
| `Admission.VerdictsExactly` | p2p/libp2p/discovery/hostWithConnectionManagement.go:70-82 | the check can accept, and can refuse, a peer exactly under two conditions on the peers, their classes and distances and the limits: its rank with and without those it ties against the allocated bound |
| `Admission.ConditionsPermute` | p2p/libp2p/discovery/hostWithConnectionManagement.go:70-82 | both conditions are the same for every order of the peers |
| `Admission.DisagreementExactly` | p2p/libp2p/discovery/hostWithConnectionManagement.go:70-82 | an accepted candidate can be evicted by a run over the same peers, in any order, if and only if both conditions hold of it |
| `Admission.DisagreementHappens` | p2p/libp2p/discovery/hostWithConnectionManagement.go:70-82 | an accepted configuration with two tied seeders: listed as b, a the check accepts b, and listed as a, b the sharder evicts b, with ties in input order in both runs |
| `Admission.NewCandidateIsSafe` | p2p/libp2p/discovery/hostWithConnectionManagement.go:70-82 | a candidate that was not connected, once let in by a sort that keeps ties in order, is evicted by no order and no sort |
| `OneListSharder.ConvertList` | p2p/libp2p/networksharding/oneListSharder.go:47-59 | the loop keeps the order and attaches each distance |
| `OneListSharder.ComputeEvictionList` | p2p/libp2p/networksharding/oneListSharder.go:40-45 | one farthest-first eviction with the single bound |
| `OneListSharder.ExcessIsEvicted` | p2p/libp2p/networksharding/oneListSharder.go:40-45 | exactly the excess over maxPeerCount is evicted |
| `OneListSharder.NearestAreKept` | p2p/libp2p/networksharding/oneListSharder.go:40-45 | kept and evicted peers are a permutation of the input and no kept distance exceeds an evicted one |
| `OneListSharder.OrderDoesNotMatter` | p2p/libp2p/networksharding/oneListSharder.go:40-45 | the evicted distances are the same for every input order |
| `Rating.UpdateKeepsValid` | p2p/rating/peersRatingHandler.go:102-154 | an update keeps the tiers disjoint and in range, whatever the cache drops |
| `Rating.AlwaysValid` | p2p/rating/peersRatingHandler.go:86-223 | over every sequence of increases, decreases and queries, no peer is in both caches, top ratings lie in [0,100] and bad ones in [-100,-1] |
| `Rating.ClampedIsNearest` | p2p/rating/peersRatingHandler.go:110-117 | clamping goes to the nearest number of [-100,100] |
| `Rating.RatedExactly` | p2p/rating/peersRatingHandler.go:86-223 | with caches that drop nothing, every peer is found in the cache of its tier with the rating a per-peer account in numbers gives: 0 at first, then 2 up to at most 100 or 1 down to at least -100 |
| `Rating.IncreasedTimes` | p2p/rating/peersRatingHandler.go:69-75 | n increases from rating r lead to min(100, r + 2n) |
| `Rating.DecreasedTimes` | p2p/rating/peersRatingHandler.go:78-84 | n decreases from rating r lead to max(-100, r - n) |
| `Rating.UpdateRefines` | p2p/rating/peersRatingHandler.go:102-154 | with a cache that drops nothing, an update is one clamped change of one map, 0 on first touch |
| `Rating.RefinesOneMap` | p2p/rating/peersRatingHandler.go:86-223 | over every sequence of operations the two caches refine that single map |
| `Rating.TiersPartition` | p2p/rating/peersRatingHandler.go:200-223 | the two tiers together are a permutation of the input |
| `Rating.TiersInOrder` | p2p/rating/peersRatingHandler.go:200-223 | each input position is in exactly one tier, decided by the bad cache, and each tier keeps the input order |
| `Rating.PeersRatingHandler.IncreaseRating` | p2p/rating/peersRatingHandler.go:69-75 | adds 2 through the two caches and keeps them valid |
| `Rating.PeersRatingHandler.DecreaseRating` | p2p/rating/peersRatingHandler.go:78-84 | subtracts 1 through the two caches and keeps them valid |
| `Rating.PeersRatingHandler.UpdateRating` | p2p/rating/peersRatingHandler.go:102-120 | the whole new state of both caches after a clamped change |
| `Rating.PeersRatingHandler.UpdateRatingCacher` | p2p/rating/peersRatingHandler.go:122-154 | the peer ends in the cache of its new tier with the new rating, unless dropped; no other entry changes except by being dropped, and the other cache loses at most the peer |
| `Rating.PeersRatingHandler.SplitPeersByTiers` | p2p/rating/peersRatingHandler.go:200-223 | the tiers of the list, and the new peers put into the top cache; the bad cache is not touched |
| `Rating.PeersRatingHandler.GetTopRatedPeersFromList` | p2p/rating/peersRatingHandler.go:157-175 | only the top tier when it is large enough, else a permutation of the whole input with the top tier first; nothing for an empty list or a minimum below one |
| `PreferredPeers.Position` | p2p/peersHolder/peersHolder.go:92-100 | the first entry of the peer, or the length of the list |
| `PreferredPeers.PutAddressKeeps` | p2p/peersHolder/peersHolder.go:59-90 | keeps the cross-links: lists duplicate-free, waiting and held peers listed under their address |
| `PreferredPeers.PutShardKeeps` | p2p/peersHolder/peersHolder.go:103-133 | keeps the cross-links |
| `PreferredPeers.RemoveKeeps` | p2p/peersHolder/peersHolder.go:158-229 | keeps the cross-links, even when a stale index cuts the wrong entry |
| `PreferredPeers.ReachableInv` | p2p/peersHolder/peersHolder.go:59-250 | the cross-links hold after every sequence of puts, removes and clears |
| `PreferredPeers.ContainsExactly` | p2p/peersHolder/peersHolder.go:215 | an address is contained in another if and only if the other is something, the address, and something |
| `PreferredPeers.KnownExactly` | p2p/peersHolder/peersHolder.go:213-221 | the first preferred address that is contained, or nothing if none is |
| `PreferredPeers.StrangerIsIgnored` | p2p/peersHolder/peersHolder.go:63-66 | a connection that contains no preferred address changes nothing |
| `PreferredPeers.PutAddressExactly` | p2p/peersHolder/peersHolder.go:59-90 | a put changes the holder, and makes the peer wait, if and only if its preferred address does not list the peer yet |
| `PreferredPeers.OnlyPreferredAreHeld` | p2p/peersHolder/peersHolder.go:59-133 | in every reachable state whoever waits or is held has a preferred address, connected over it, and is held in a shard it was given |
| `PreferredPeers.ShardOfStrangerIsIgnored` | p2p/peersHolder/peersHolder.go:107-110 | a shard for a peer that does not wait changes nothing |
| `PreferredPeers.RemoveLeavesOthers` | p2p/peersHolder/peersHolder.go:158-208 | removing a peer that is not held changes nothing; removing a held one touches no other peer, address list or shard list |
| `PreferredPeers.ClearKeeps` | p2p/peersHolder/peersHolder.go:242-250 | all four maps are empty after Clear and the preferred addresses stay |
| `PreferredPeers.ShardsHavePeers` | p2p/peersHolder/peersHolder.go:224-229 | in every reachable state no shard is listed without peers |
| `PreferredPeers.WaitingPeerIsHeld` | p2p/peersHolder/peersHolder.go:103-133 | in every reachable state PutShardID succeeds for a waiting peer and records its address, shard and position |
| `PreferredPeers.AgreeWithoutRemove` | p2p/peersHolder/peersHolder.go:59-133 | stored index and shard-list position agree in every state reached without Remove |
| `PreferredPeers.RemoveAgreesExactly` | p2p/peersHolder/peersHolder.go:158-229 | from every agreeing state, Remove keeps the agreement if and only if every held peer of the shard behind the removed one has itself listed once more right after its own entry |
| `PreferredPeers.RemoveAgreesWhenDistinct` | p2p/peersHolder/peersHolder.go:158-229 | with a duplicate-free shard list that is: if and only if no other held peer of the shard has a larger index |
| `PreferredPeers.RemoveCutsOwnExactly` | p2p/peersHolder/peersHolder.go:224-229 | in every state, Remove takes one entry of the peer itself off the shard list if and only if the stored index points to it |
| `PreferredPeers.SecondRemovePanics` | p2p/peersHolder/peersHolder.go:224-229 | from any agreeing state, removing a peer and then the last one of its shard slices out of bounds |
| `PreferredPeers.SecondRemove` | p2p/peersHolder/peersHolder.go:224-229 | removing a peer and then one behind it: a panic exactly when that one is last in its shard, and else the entry after its own is cut |
| `PreferredPeers.SecondRemoveCutsNeighbour` | p2p/peersHolder/peersHolder.go:224-229 | so the next held peer loses its entry and stays held, and the removed peer stays listed |
| `PreferredPeers.PanicIsReachable` | p2p/peersHolder/peersHolder.go:224-229 | for every list of preferred addresses, every connection that contains one, every two peers and every shard, five calls on a fresh holder lead to a state from which Remove panics |
| `PreferredPeers.WrongCutIsReachable` | p2p/peersHolder/peersHolder.go:158-229 | likewise for every three peers: eight calls leave a removed peer listed and a held one unlisted |
| `PreferredPeers.TakenUpAgainExactly` | p2p/peersHolder/peersHolder.go:184-199 | a removed peer that connects again is taken up if and only if the address it comes from is the recorded one or does not list it |
| `PreferredPeers.IgnoredIsReachable` | p2p/peersHolder/peersHolder.go:184-199 | for every two connections with different preferred addresses: a peer that used both is removed, comes back over the first and is ignored |
| `PreferredPeers.PeersHolder.GetKnownConnection` | p2p/peersHolder/peersHolder.go:213-221 | the first preferred address contained in the given one |
| `PreferredPeers.PeersHolder.PutConnectionAddress` | p2p/peersHolder/peersHolder.go:59-90 | the whole new state: an unlisted peer of a known address starts waiting and is listed there |
| `PreferredPeers.PeersHolder.PutShardID` | p2p/peersHolder/peersHolder.go:103-133 | the whole new state: a waiting peer is relabelled, appended to its shard and held with its index |
| `PreferredPeers.PeersHolder.Remove` | p2p/peersHolder/peersHolder.go:158-208 | the whole new state, and a panic exactly when the stored index is past the end of the shard list |
| `PreferredPeers.PeersHolder.RemovePeerFromMapAtIndex` | p2p/peersHolder/peersHolder.go:224-229 | cuts the list at the index and deletes the key of an emptied list |
| `PreferredPeers.PeersHolder.Clear` | p2p/peersHolder/peersHolder.go:242-250 | empties the four maps and keeps the preferred addresses |

## Left out

- Transceiver.WsTransceiver.PrepareChanAndCounter: the counter wraps at 2^64 in the object; the step system, and so the safety theorems, cover runs that draw at most 2^64 - 1 counters per side.
- Envelope.CreateMessageBytes: for clock readings whose seconds fit an int64, and the protobuf marshaller; other marshallers are not modelled.
- Aliasing of Go slices: `append` in place in `Remove`, and `Get` handing out the live shard lists, are modelled on values.
- `MarshalTo`, `XXX_*`, `Reset`, `Equal`, getters, `String` and `GoString` of the generated messages.
- p2p/message/peerShardMessage.pb.go: the same codec with one field.
- Retrying the write of an acknowledgement: a step that may happen any number of times, or never; timers appear only as a timeout step that may happen at any moment.
- Sending on a channel that was removed in the meantime panics in Go; the step system has no such step.
- What a collector gets after the load balancer was closed: a nil that comes from no channel.
- Validation of preferred addresses, nil-argument checks, logging, metrics and constructors' error returns, other than the sharder's configuration check.
- core.AllShardId is not part of this model; its value is written as a constant that nothing depends on.
- `kbucket.ConvertPeerID`: the distances work on keys of equal length, and the sharders take the distance as a function.
- libp2p hosts, pubsub, discovery, dialing, HTTP and WebSocket plumbing, signing, time caches, LRU caches, topic processors, connection counters, resource limits and ports.
