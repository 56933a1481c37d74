/** The topic message envelope: what a sender wraps around a payload, and what a receiver
    checks before it hands the payload on. */
module Envelope {
  import opened Bits
  import opened Common
  import opened Wire
  import opened Records
  import opened RecordLaws
  import opened Decoding
  import opened Language
  import Codec = TopicCodec

  const MESSAGE_HEADER: nat := 64 * 1024
  const MAX_SEND_BUFF_SIZE: nat := 0x20_0000 - MESSAGE_HEADER
  const PUBSUB_MAX_MESSAGE_SIZE: nat := 0x20_0000
  const CURRENT_VERSION: uint32 := 1
  const NANOS: nat := 1_000_000_000
  const TIME_CACHE_NANOS: nat := 600 * NANOS
  const IN_ADVANCE_NANOS: nat := 20 * NANOS

  datatype Failure =
    | MessageTooLarge
    | EmptyBufferToSend
    | NilMessage
    | NilTopic
    | UnmarshalError(cause: Error)
    | UnsupportedVersion(got: uint32)
    | UnsupportedFields
    | BadOriginator
    | MessageTooNew
    | MessageTooOld

  datatype Result<+T> = Ok(value: T) | Err(failure: Failure)

  // ---------------------------------------------------------------- sending

  function CheckSendableData(buff: seq<byte>): Option<Failure> {
    if |buff| > MAX_SEND_BUFF_SIZE then Some(MessageTooLarge)
    else if |buff| == 0 then Some(EmptyBufferToSend)
    else None
  }

  /** The seconds of a clock reading in nanoseconds: Go's `Time.Unix`, which rounds down. */
  function Unix(now: int): int {
    now / NANOS
  }

  /** The seconds of the reading fit the int64 they are stored in. */
  predicate FitsInt64(now: int) {
    0 <= Unix(now) + TWO_63 < TWO_64
  }

  function EnvelopeOf(buff: seq<byte>, second: int64): Codec.Topic {
    Codec.Topic(CURRENT_VERSION, buff, second, [], [])
  }

  /** `createMessageBytes` at a clock reading whose seconds fit an int64. */
  function CreateMessageBytes(buff: seq<byte>, now: int): seq<byte>
    requires FitsInt64(now)
  {
    Codec.Encode(EnvelopeOf(buff, Unix(now)))
  }

  /** The size check at the head of the direct sender's `Send`. */
  predicate DirectSendAccepts(data: seq<byte>) {
    |data| < MAX_SEND_BUFF_SIZE
  }

  // ---------------------------------------------------------------- receiving

  datatype PubsubMessage = PubsubMessage(
    from: seq<byte>,
    data: seq<byte>,
    seqno: seq<byte>,
    topic: Option<string>,
    signature: seq<byte>,
    key: seq<byte>)

  datatype Message<P> = Message(
    from: seq<byte>,
    payload: seq<byte>,
    seqNo: seq<byte>,
    topic: string,
    signature: seq<byte>,
    key: seq<byte>,
    broadcastMethod: string,
    data: seq<byte>,
    timestamp: int64,
    peer: P)

  /** `NewMessage`. Parsing an originator id is left to `idFromBytes`. */
  function NewMessage<P>(msg: Option<PubsubMessage>, broadcastMethod: string, idFromBytes: seq<byte> -> Option<P>):
    Result<Message<P>>
  {
    if msg.None? then Err(NilMessage)
    else if msg.value.topic.None? then Err(NilTopic)
    else
      var m := msg.value;
      var d := Codec.Decode(Codec.ZERO, m.data);
      if d.err.Some? then Err(UnmarshalError(d.err.value))
      else if d.message.version != CURRENT_VERSION then Err(UnsupportedVersion(d.message.version))
      else if |d.message.signatureOnPid| + |d.message.pk| > 0 then Err(UnsupportedFields)
      else
        var id := idFromBytes(m.from);
        if id.None? then Err(BadOriginator)
        else Ok(Message(m.from, m.data, m.seqno, m.topic.value, m.signature, m.key, broadcastMethod,
                        d.message.payload, d.message.timestamp, id.value))
  }

  /** `validateMessageByTimestamp` at clock reading `now`. */
  function ValidateTimestamp(now: int, timestamp: int64): Option<Failure> {
    if Unix(now + IN_ADVANCE_NANOS) < timestamp then Some(MessageTooNew)
    else if timestamp < Unix(now) - TIME_CACHE_NANOS / NANOS then Some(MessageTooOld)
    else None
  }

  // ---------------------------------------------------------------- laws

  /** The sizes that each of the two checks lets through, in bytes. */
  lemma SizeLimits(buff: seq<byte>)
    ensures CheckSendableData(buff).None? <==> 1 <= |buff| <= 2_031_616
    ensures CheckSendableData(buff) == Some(EmptyBufferToSend) <==> buff == []
    ensures CheckSendableData(buff) == Some(MessageTooLarge) <==> |buff| > 2_031_616
    ensures DirectSendAccepts(buff) <==> |buff| < 2_031_616
    ensures PUBSUB_MAX_MESSAGE_SIZE == 2_097_152
  {
  }

  lemma SmallSov(n: nat)
    requires n < 0x20_0000
    ensures Sov(n) <= 3
  {
    hide Sov, VarintBytes;
    SovIsLength(n);
    assert Pow2(7 * 3) == 0x20_0000 by {
      Pow2Constants();
      Pow2Add(7, 7);
      Pow2Add(7, 14);
    }
    VarintLength(n, 3);
  }

  lemma AnySov(n: nat)
    requires n < TWO_64
    ensures Sov(n) <= 10
  {
    hide Sov, VarintBytes;
    SovIsLength(n);
    Uint64Length(n);
  }

  lemma OneByteVersion()
    ensures Sov(CURRENT_VERSION) == 1
  {
  }

  /** The envelope of a sendable payload: its exact size, and the bounds that follow from it. */
  lemma EnvelopeOverhead(buff: seq<byte>, now: int)
    requires CheckSendableData(buff).None? && FitsInt64(now)
    ensures var n := |CreateMessageBytes(buff, now)|;
            && n == |buff| + 3 + Sov(|buff|) + (if Unix(now) == 0 then 0 else 1 + Sov(ToUint64(Unix(now))))
            && n <= |buff| + 17
            && n < PUBSUB_MAX_MESSAGE_SIZE
  {
    hide Sov, Codec.Encode, ToUint64;
    Codec.SizeIsExact(EnvelopeOf(buff, Unix(now)));
    OneByteVersion();
    SmallSov(|buff|);
    AnySov(ToUint64(Unix(now)));
  }

  /** Every payload of at most MAX_SEND_BUFF_SIZE - 18 bytes also passes the direct sender. */
  lemma DirectSendFits(buff: seq<byte>, now: int)
    requires 0 < |buff| <= MAX_SEND_BUFF_SIZE - 18 && FitsInt64(now)
    ensures DirectSendAccepts(CreateMessageBytes(buff, now))
  {
    hide CreateMessageBytes;
    EnvelopeOverhead(buff, now);
  }

  /** A payload can pass the first size check and still be refused by the direct sender: this
      happens exactly when the envelope uses up the bytes that are left. */
  lemma DirectSendExactly(buff: seq<byte>, now: int)
    requires CheckSendableData(buff).None? && FitsInt64(now)
    ensures DirectSendAccepts(CreateMessageBytes(buff, now)) <==>
            |buff| + 3 + Sov(|buff|) + (if Unix(now) == 0 then 0 else 1 + Sov(ToUint64(Unix(now))))
              < MAX_SEND_BUFF_SIZE
  {
    hide CreateMessageBytes, Sov;
    EnvelopeOverhead(buff, now);
  }

  lemma LargestPayloadRefused(buff: seq<byte>, now: int)
    requires |buff| == MAX_SEND_BUFF_SIZE && FitsInt64(now)
    ensures CheckSendableData(buff).None? && !DirectSendAccepts(CreateMessageBytes(buff, now))
  {
    hide CreateMessageBytes, Sov;
    EnvelopeOverhead(buff, now);
  }

  /** What a receiver makes of any encoded message. */
  lemma NewMessageExactly<P>(x: Codec.Topic, m: PubsubMessage, broadcastMethod: string,
                             idFromBytes: seq<byte> -> Option<P>)
    requires Codec.Sized(x) && |Codec.Encode(x)| < TWO_63 && m.data == Codec.Encode(x) && m.topic.Some?
    ensures var r := NewMessage(Some(m), broadcastMethod, idFromBytes);
            && (r.Ok? <==> x.version == 1 && x.pk == [] && x.signatureOnPid == [] && idFromBytes(m.from).Some?)
            && (x.version != 1 ==> r == Err(UnsupportedVersion(x.version)))
            && (x.version == 1 && (x.pk != [] || x.signatureOnPid != []) ==> r == Err(UnsupportedFields))
            && (x.version == 1 && x.pk == [] && x.signatureOnPid == [] && idFromBytes(m.from).None? ==>
                  r == Err(BadOriginator))
            && (r.Ok? ==> r.value == Message(m.from, m.data, m.seqno, m.topic.value, m.signature, m.key, broadcastMethod,
                                             x.payload, x.timestamp, idFromBytes(m.from).value))
  {
    hide Codec.Encode, Codec.Decode;
    Codec.RoundTrip(x);
  }

  /** Messages without a topic, and bytes that are not a sequence of acceptable fields, are refused. */
  lemma RefusedBytes<P>(m: PubsubMessage, broadcastMethod: string, idFromBytes: seq<byte> -> Option<P>)
    requires |m.data| < TWO_63
    ensures NewMessage(None, broadcastMethod, idFromBytes) == Err(NilMessage)
    ensures NewMessage(Some(m), broadcastMethod, idFromBytes) == Err(NilTopic) <==> m.topic.None?
    ensures m.topic.Some? ==>
              (NewMessage(Some(m), broadcastMethod, idFromBytes).Err?
               && NewMessage(Some(m), broadcastMethod, idFromBytes).failure.UnmarshalError?
               <==> !exists fs :: AllAcceptable(Codec.SCHEMA, fs) && FieldsBytes(fs) == m.data)
  {
    hide Parse, FieldsBytes, AllAcceptable, ApplyAll;
    AcceptedExactly(Codec.SCHEMA, m.data);
  }

  /** The receiver's message holds the payload and the second at which it was stamped, and every
      other field as pubsub delivered it. */
  lemma EnvelopeRoundTrip<P>(buff: seq<byte>, now: int, m: PubsubMessage, broadcastMethod: string,
                             idFromBytes: seq<byte> -> Option<P>)
    requires CheckSendableData(buff).None? && FitsInt64(now)
    requires m.data == CreateMessageBytes(buff, now) && m.topic.Some? && idFromBytes(m.from).Some?
    ensures NewMessage(Some(m), broadcastMethod, idFromBytes)
         == Ok(Message(m.from, m.data, m.seqno, m.topic.value, m.signature, m.key, broadcastMethod,
                       buff, Unix(now), idFromBytes(m.from).value))
  {
    hide Codec.Encode, Codec.Decode, Sov, Unix;
    EnvelopeOverhead(buff, now);
    Codec.RoundTrip(EnvelopeOf(buff, Unix(now)));
  }

  /** The accepted window around the receiver's second r is [r - 600, r + 20]; what lies outside is
      refused for the side on which it lies. */
  lemma TimeWindow(now: int, timestamp: int64)
    ensures ValidateTimestamp(now, timestamp).None? <==> Unix(now) - 600 <= timestamp <= Unix(now) + 20
    ensures ValidateTimestamp(now, timestamp) == Some(MessageTooNew) <==> timestamp > Unix(now) + 20
    ensures ValidateTimestamp(now, timestamp) == Some(MessageTooOld) <==> timestamp < Unix(now) - 600
  {
    ModAdd(now, 20, NANOS);
    assert Unix(now + 20 * NANOS) == Unix(now) + 20;
  }

  /** A second holds the readings from its start up to the next one's, before 1970 too. */
  lemma UnixRoundsDown(now: int, second: int)
    ensures Unix(now) == second <==> second * 1_000_000_000 <= now < (second + 1) * 1_000_000_000
  {
    assert now == Unix(now) * 1_000_000_000 + now % 1_000_000_000;
  }

  /** A message is accepted end to end exactly when the receiver's clock is at most 20 seconds
      behind and at most 600 seconds ahead of the sender's. */
  lemma AcceptedWithinSkew<P>(buff: seq<byte>, sent: int, received: int, m: PubsubMessage, broadcastMethod: string,
                              idFromBytes: seq<byte> -> Option<P>)
    requires CheckSendableData(buff).None? && FitsInt64(sent)
    requires m.data == CreateMessageBytes(buff, sent) && m.topic.Some? && idFromBytes(m.from).Some?
    ensures var msg := NewMessage(Some(m), broadcastMethod, idFromBytes);
            && msg.Ok? && msg.value.data == buff
            && (ValidateTimestamp(received, msg.value.timestamp).None?
                <==> -20 <= Unix(received) - Unix(sent) <= 600)
  {
    hide NewMessage, CreateMessageBytes, ValidateTimestamp, Unix;
    EnvelopeRoundTrip(buff, sent, m, broadcastMethod, idFromBytes);
    TimeWindow(received, Unix(sent));
  }
}
