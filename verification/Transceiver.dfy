/** The WebSocket transceiver: its acknowledge table, the messages it builds and what it does
    with the bytes it receives. */
module Transceiver {
  import opened Bits
  import opened Common
  import Wire
  import Codec = WsCodec
  import Decoding
  import Language
  import RecordLaws
  import Records

  const ACK_MESSAGE: int32 := 1
  const PAYLOAD_MESSAGE: int32 := 2

  /** The message that `Send` builds. */
  function PayloadMessage(withAck: bool, counter: uint64, payload: seq<byte>, topic: seq<byte>, version: uint32): Codec.Ws {
    Codec.Ws(withAck, counter, PAYLOAD_MESSAGE, payload, topic, version)
  }

  /** The message that `sendAckIfNeeded` builds. */
  function AckMessage(counter: uint64): Codec.Ws {
    Codec.Ws(false, counter, ACK_MESSAGE, [], [], 0)
  }

  /** What a received buffer turns out to be. */
  datatype Received = Empty | Malformed | Ack(counter: uint64) | Payload(message: Codec.Ws) | OtherKind

  function Classify(data: seq<byte>): Received {
    if |data| == 0 then Empty else
    var d := Codec.Decode(Codec.ZERO, data);
    if d.err.Some? then Malformed
    else if d.message.kind == ACK_MESSAGE then Ack(d.message.counter)
    else if d.message.kind == PAYLOAD_MESSAGE then Payload(d.message)
    else OtherKind
  }

  /** Whether a received buffer is answered with an acknowledgement. */
  predicate OwesAck(received: Received, handlerFails: bool, blocking: bool) {
    received.Payload? && received.message.withAcknowledge && !(handlerFails && blocking)
  }

  /** The keys of the acknowledge table once counter c is drawn. */
  function Drawn(withAck: bool, pending: set<nat>, c: nat): set<nat> {
    if withAck then pending + {c} else pending
  }

  /** The keys of the acknowledge table once counter c is acknowledged. */
  function Acked(pending: set<nat>, c: nat): set<nat> {
    pending - {c}
  }

  lemma NeverEmpty(m: Codec.Ws)
    requires Codec.Sized(m) && |Codec.Encode(m)| < TWO_63 && m != Codec.ZERO
    ensures |Codec.Encode(m)| > 0
  {
    hide Codec.Encode;
    Codec.RoundTrip(m);
    assert Codec.Encode(m) == [] ==> Codec.Decode(Codec.ZERO, []) == Decoding.Decoded(m, None);
    Decoding.DecodeEnds(Codec.FORMAT, Codec.ZERO, []);
  }

  /** What a receiver makes of any encoded message: only type 1 acknowledges and only type 2
      carries a payload. */
  lemma ClassifyEncoded(m: Codec.Ws)
    requires Codec.Sized(m) && |Codec.Encode(m)| < TWO_63
    ensures Classify(Codec.Encode(m))
         == if m == Codec.ZERO then Empty
            else if m.kind == 1 then Ack(m.counter)
            else if m.kind == 2 then Payload(m)
            else OtherKind
  {
    hide Codec.Encode, Codec.Decode;
    Codec.RoundTrip(m);
    if m == Codec.ZERO {
      Codec.WireLayout(m);
    } else {
      NeverEmpty(m);
    }
  }

  /** Bytes are malformed exactly when they are not a sequence of acceptable fields. */
  lemma MalformedExactly(data: seq<byte>)
    requires |data| < TWO_63
    ensures Classify(data) == Malformed <==>
            !exists fs :: Language.AllAcceptable(Codec.SCHEMA, fs) && RecordLaws.FieldsBytes(fs) == data
  {
    hide Records.Parse, RecordLaws.FieldsBytes, Language.AllAcceptable, Decoding.ApplyAll;
    Language.AcceptedExactly(Codec.SCHEMA, data);
    RecordLaws.ParseEmpty(Codec.SCHEMA, 0);
  }

  /** The receiver sees the payload message that was sent. */
  lemma PayloadArrives(m: Codec.Ws)
    requires Codec.Sized(m) && |Codec.Encode(m)| < TWO_63 && m.kind == PAYLOAD_MESSAGE
    ensures Classify(Codec.Encode(m)) == Payload(m)
  {
    hide Codec.Encode, Codec.Decode;
    NeverEmpty(m);
    Codec.RoundTrip(m);
  }

  lemma AckSize(counter: uint64)
    ensures |Codec.Encode(AckMessage(counter))| < TWO_63
  {
    hide Codec.Encode, Wire.Sov;
    Codec.SizeIsExact(AckMessage(counter));
    Wire.SovIsLength(counter);
    Wire.SovIsLength(1);
    Wire.Uint64Length(counter);
    Wire.Uint64Length(1);
  }

  /** The sender sees the acknowledgement of the counter it chose. */
  lemma AckArrives(counter: uint64)
    ensures Classify(Codec.Encode(AckMessage(counter))) == Ack(counter)
  {
    hide Codec.Encode, Codec.Decode;
    AckSize(counter);
    NeverEmpty(AckMessage(counter));
    Codec.RoundTrip(AckMessage(counter));
  }

  /** A `chan struct{}`; closing it twice would panic. */
  class Channel {
    var closed: bool

    constructor ()
      ensures !closed
    {
      closed := false;
    }

    method Close()
      requires !closed
      modifies this
      ensures closed
    {
      closed := true;
    }
  }

  class WsTransceiver {
    const withAcknowledge: bool
    const blockingAckOnError: bool
    const payloadVersion: uint32
    var mapAck: map<uint64, Channel>
    var counter: uint64

    /** Channels in the table are open and each belongs to one counter. */
    ghost predicate Valid()
      reads this, mapAck.Values
    {
      && (forall c | c in mapAck :: !mapAck[c].closed)
      && (forall c, d | c in mapAck && d in mapAck && c != d :: mapAck[c] != mapAck[d])
    }

    constructor (withAcknowledge: bool, blockingAckOnError: bool, payloadVersion: uint32)
      ensures Valid() && mapAck == map[] && counter == 0
      ensures this.withAcknowledge == withAcknowledge
      ensures this.blockingAckOnError == blockingAckOnError && this.payloadVersion == payloadVersion
    {
      this.withAcknowledge := withAcknowledge;
      this.blockingAckOnError := blockingAckOnError;
      this.payloadVersion := payloadVersion;
      mapAck, counter := map[], 0;
    }

    method PrepareChanAndCounter() returns (ch: Channel, localCounter: uint64)
      requires Valid()
      modifies this
      ensures Valid() && fresh(ch) && !ch.closed
      ensures counter == localCounter == (old(counter) + 1) % TWO_64
      ensures mapAck == if withAcknowledge then old(mapAck)[localCounter := ch] else old(mapAck)
      ensures mapAck.Keys == Drawn(withAcknowledge, old(mapAck.Keys), localCounter)
    {
      counter := (counter + 1) % TWO_64;
      localCounter := counter;
      ch := new Channel();
      if withAcknowledge {
        mapAck := mapAck[localCounter := ch];
      }
    }

    /** `Send` up to the write: draws a counter and builds the bytes to be written. */
    method PrepareSend(payload: seq<byte>, topic: seq<byte>) returns (ch: Channel, bytes: seq<byte>)
      requires Valid()
      requires Codec.Sized(PayloadMessage(withAcknowledge, (counter + 1) % TWO_64, payload, topic, payloadVersion))
      modifies this
      ensures Valid() && fresh(ch) && !ch.closed && counter == (old(counter) + 1) % TWO_64
      ensures mapAck == if withAcknowledge then old(mapAck)[counter := ch] else old(mapAck)
      ensures bytes == Codec.Encode(PayloadMessage(withAcknowledge, counter, payload, topic, payloadVersion))
    {
      hide Codec.Encode;
      var localCounter;
      ch, localCounter := PrepareChanAndCounter();
      var data := Codec.Marshal(PayloadMessage(withAcknowledge, localCounter, payload, topic, payloadVersion));
      bytes := data[..];
    }

    /** Closes the channel of a pending counter and forgets it; any other acknowledgement,
        late, repeated or unknown, changes nothing. */
    method HandleAckMessage(c: uint64)
      requires Valid()
      modifies this`mapAck, mapAck.Values
      ensures Valid()
      ensures mapAck == old(mapAck) - {c} && mapAck.Keys == Acked(old(mapAck.Keys), c)
      ensures c in old(mapAck) ==> old(mapAck)[c].closed
      ensures forall d | d in old(mapAck) && d != c :: !old(mapAck)[d].closed
    {
      if c in mapAck {
        var ch := mapAck[c];
        ch.Close();
        mapAck := mapAck - {c};
      }
    }

    /** `verifyPayloadAndSendAckIfNeeded`: `handlerFails` stands for the outcome of
        `ProcessPayload`, and `ack` is the acknowledgement to be written, if any. */
    method VerifyPayload(data: seq<byte>, handlerFails: bool) returns (received: Received, ack: Option<seq<byte>>)
      requires Valid() && |data| < TWO_63
      modifies this`mapAck, mapAck.Values
      ensures Valid() && received == Classify(data)
      ensures mapAck == if received.Ack? then old(mapAck) - {received.counter} else old(mapAck)
      ensures forall c | c in old(mapAck) :: old(mapAck)[c].closed <==> received == Ack(c)
      ensures ack == if OwesAck(received, handlerFails, blockingAckOnError)
                     then Some(Codec.Encode(AckMessage(received.message.counter))) else None
    {
      hide Codec.Encode, Codec.Decode;
      if |data| == 0 {
        return Empty, None;
      }
      var m := new Codec.Message();
      var err := m.Unmarshal(data);
      if err.Some? {
        return Malformed, None;
      }
      if m.kind == ACK_MESSAGE {
        received, ack := Ack(m.counter), None;
        HandleAckMessage(m.counter);
        return;
      }
      if m.kind != PAYLOAD_MESSAGE {
        return OtherKind, None;
      }
      received, ack := Payload(m.Contents()), None;
      if handlerFails && blockingAckOnError {
        return;
      }
      if m.withAcknowledge {
        AckSize(m.counter);
        var bytes := Codec.Marshal(AckMessage(m.counter));
        ack := Some(bytes[..]);
      }
    }
  }
}
