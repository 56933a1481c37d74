/** The acknowledge protocol of two transceivers over one connection, as atomic steps. The
    connection may lose, duplicate, delay and reorder what was written, but it forges nothing:
    it is the set of buffers ever written in each direction. */
module AckProtocol {
  import opened Bits
  import opened Common
  import opened Transceiver
  import Codec = WsCodec

  datatype Outcome = Success | WriteError | AckTimeout | ClosedWithoutAck

  datatype Status = Prepared | Waiting | Returned(outcome: Outcome)

  /** A call of `Send`, named by the counter it drew. */
  datatype SendCall = SendCall(payload: seq<byte>, topic: seq<byte>, status: Status)

  /** A call of the handler's `ProcessPayload`, and the counter of the message that caused it.
      The handler is not given the counter. */
  datatype HandlerCall = HandlerCall(counter: nat, payload: seq<byte>, topic: seq<byte>, version: uint32, failed: bool)

  datatype Endpoint = Endpoint(
    withAck: bool,
    blocking: bool,
    version: uint32,
    counter: nat,
    pending: set<nat>,        // the keys of mapAck
    closes: seq<nat>,         // counters whose channel was closed, in order
    sends: map<nat, SendCall>,
    calls: seq<HandlerCall>,
    acksOwed: set<nat>,       // counters of the peer that sendAckIfNeeded has taken up
    closed: bool)

  type Traffic = set<seq<byte>>

  /** Endpoint i writes to wires[i] and reads from wires[1 - i]. */
  datatype State = State(ends: seq<Endpoint>, wires: seq<Traffic>)

  type Side = i: nat | i < 2

  ghost predicate Shape(s: State) {
    |s.ends| == 2 && |s.wires| == 2
  }

  ghost predicate Fresh(e: Endpoint) {
    && e.counter == 0 && e.pending == {} && e.closes == [] && e.sends == map[]
    && e.calls == [] && e.acksOwed == {} && !e.closed
  }

  ghost predicate Init(s: State) {
    Shape(s) && Fresh(s.ends[0]) && Fresh(s.ends[1]) && s.wires[0] == s.wires[1] == {}
  }

  function MessageOf(e: Endpoint, c: uint64, call: SendCall): Codec.Ws {
    PayloadMessage(e.withAck, c, call.payload, call.topic, e.version)
  }

  ghost predicate Marshallable(m: Codec.Ws) {
    Codec.Sized(m) && |Codec.Encode(m)| < TWO_63
  }

  datatype Action =
    | Begin(i: Side, payload: seq<byte>, topic: seq<byte>)
    | Write(i: Side, c: nat, onWire: bool, ok: bool)
    | Wake(i: Side, c: nat, outcome: Outcome)
    | Receive(i: Side, data: seq<byte>, fails: bool)
    | WriteAck(i: Side, c: nat)
    | Close(i: Side)

  // ---------------------------------------------------------------- local steps

  /** `prepareChanAndCounter`. */
  function Prepare(e: Endpoint, payload: seq<byte>, topic: seq<byte>): Endpoint {
    var c := e.counter + 1;
    e.(counter := c,
       pending := Drawn(e.withAck, e.pending, c),
       sends := e.sends[c := SendCall(payload, topic, Prepared)])
  }

  function SetStatus(e: Endpoint, c: nat, status: Status): Endpoint
    requires c in e.sends
  {
    e.(sends := e.sends[c := e.sends[c].(status := status)])
  }

  /** `handleAckMessage`. */
  function HandleAck(e: Endpoint, c: nat): Endpoint {
    if c in e.pending then e.(pending := Acked(e.pending, c), closes := e.closes + [c]) else e
  }

  /** `verifyPayloadAndSendAckIfNeeded`, up to the taking up of the acknowledgement. */
  function Take(e: Endpoint, data: seq<byte>, fails: bool): Endpoint {
    match Classify(data)
    case Ack(c) => HandleAck(e, c)
    case Payload(m) =>
      var e' := e.(calls := e.calls + [HandlerCall(m.counter, m.payload, m.topic, m.version, fails)]);
      if OwesAck(Payload(m), fails, e.blocking) then e'.(acksOwed := e.acksOwed + {m.counter}) else e'
    case _ => e
  }

  // ---------------------------------------------------------------- global steps

  ghost predicate Enabled(s: State, a: Action)
    requires Shape(s)
  {
    var e := s.ends[a.i];
    match a
    case Begin(_, payload, topic) =>
      // a counter stays below 2^64 and the message can be allocated
      e.counter + 1 < TWO_64 && Marshallable(MessageOf(e, e.counter + 1, SendCall(payload, topic, Prepared)))
    case Write(_, c, _, _) => c in e.sends && e.sends[c].status == Prepared && c < TWO_64
    case Wake(_, c, outcome) =>
      && c in e.sends && e.sends[c].status == Waiting
      && (outcome == Success ==> c in e.closes)
      && (outcome == ClosedWithoutAck ==> e.closed)
      && outcome != WriteError
    case Receive(i, data, _) => data in s.wires[1 - i]
    case WriteAck(_, c) => c in e.acksOwed && c < TWO_64
    case Close(_) => true
  }

  ghost function Step(s: State, a: Action): State
    requires Shape(s) && Enabled(s, a)
  {
    var i := a.i;
    var e := s.ends[i];
    match a
    case Begin(_, payload, topic) => s.(ends := s.ends[i := Prepare(e, payload, topic)])
    case Write(_, c, onWire, ok) =>
      var status := if !ok then Returned(WriteError) else if e.withAck then Waiting else Returned(Success);
      var written := if onWire then {Codec.Encode(MessageOf(e, c, e.sends[c]))} else {};
      State(s.ends[i := SetStatus(e, c, status)], s.wires[i := s.wires[i] + written])
    case Wake(_, c, outcome) => s.(ends := s.ends[i := SetStatus(e, c, Returned(outcome))])
    case Receive(_, data, fails) => s.(ends := s.ends[i := Take(e, data, fails)])
    case WriteAck(_, c) => s.(wires := s.wires[i := s.wires[i] + {Codec.Encode(AckMessage(c))}])
    case Close(_) => s.(ends := s.ends[i := e.(closed := true)])
  }

  /** A run: any interleaving of enabled steps from an initial state. */
  ghost predicate Run(states: seq<State>, actions: seq<Action>) {
    && |states| == |actions| + 1
    && Init(states[0])
    && forall k | 0 <= k < |actions| ::
         Shape(states[k]) && Enabled(states[k], actions[k]) && states[k + 1] == Step(states[k], actions[k])
  }

  // ---------------------------------------------------------------- the invariant

  /** The handler call that the send with counter c asks for, as `blockingAckOnError` wants it. */
  predicate Serves(call: HandlerCall, receiver: Endpoint, sender: Endpoint, c: nat)
    requires c in sender.sends
  {
    && call.counter == c
    && call.payload == sender.sends[c].payload
    && call.topic == sender.sends[c].topic
    && call.version == sender.version
    && (receiver.blocking ==> !call.failed)
  }

  ghost predicate Served(receiver: Endpoint, sender: Endpoint, c: nat)
    requires c in sender.sends
  {
    exists k | 0 <= k < |receiver.calls| :: Serves(receiver.calls[k], receiver, sender, c)
  }

  /** The acknowledge table of one endpoint. */
  ghost predicate TableInv(e: Endpoint) {
    && e.counter < TWO_64
    && (forall c :: c in e.sends <==> 1 <= c <= e.counter)
    && (forall c | c in e.sends :: Marshallable(MessageOf(e, c, e.sends[c])))
    && (forall c :: c in e.pending <==> e.withAck && 1 <= c <= e.counter && c !in e.closes)
    && (forall c | c in e.closes :: e.withAck && 1 <= c <= e.counter)
    && Distinct(e.closes)
    && (forall c | c in e.sends :: e.withAck && e.sends[c].status == Returned(Success) ==> c in e.closes)
  }

  /** Every buffer an endpoint wrote is one of its payload messages or an acknowledgement it owes. */
  ghost predicate Genuine(e: Endpoint, data: seq<byte>) {
    || (exists c | c in e.sends :: c < TWO_64 && data == Codec.Encode(MessageOf(e, c, e.sends[c])))
    || (exists c | c in e.acksOwed :: c < TWO_64 && data == Codec.Encode(AckMessage(c)))
  }

  /** What endpoint e knows of its peer p, and what it wrote. */
  ghost predicate LinkInv(e: Endpoint, p: Endpoint, wire: Traffic) {
    && (forall data | data in wire :: Genuine(e, data))
    && (forall c | c in e.acksOwed :: c in p.sends && Served(e, p, c))
    && (forall c | c in e.closes :: c in p.acksOwed)
  }

  ghost predicate Inv(s: State) {
    && Shape(s)
    && TableInv(s.ends[0]) && TableInv(s.ends[1])
    && LinkInv(s.ends[0], s.ends[1], s.wires[0])
    && LinkInv(s.ends[1], s.ends[0], s.wires[1])
  }
}
