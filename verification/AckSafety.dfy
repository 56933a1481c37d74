/** Safety of the acknowledge protocol over every run. */
module AckSafety {
  import opened Bits
  import opened Common
  import opened Transceiver
  import opened AckProtocol
  import Codec = WsCodec
  import Wire

  /** What a local step never takes back. */
  ghost predicate Extends(e: Endpoint, e': Endpoint) {
    && e'.withAck == e.withAck && e'.blocking == e.blocking && e'.version == e.version
    && (forall c | c in e.sends ::
          c in e'.sends && e'.sends[c].payload == e.sends[c].payload && e'.sends[c].topic == e.sends[c].topic)
    && e.acksOwed <= e'.acksOwed
    && e.calls <= e'.calls
  }

  lemma ServedStays(e: Endpoint, e': Endpoint, p: Endpoint, p': Endpoint, c: nat)
    requires Extends(e, e') && Extends(p, p') && c in p.sends && Served(e, p, c)
    ensures c in p'.sends && Served(e', p', c)
  {
    var k :| 0 <= k < |e.calls| && Serves(e.calls[k], e, p, c);
    assert e'.calls[k] == e.calls[k];
    assert Serves(e'.calls[k], e', p', c);
  }

  lemma GenuineStays(e: Endpoint, e': Endpoint, data: seq<byte>)
    requires Extends(e, e') && Genuine(e, data)
    ensures Genuine(e', data)
  {
    hide Codec.Encode;
    if c :| c in e.sends && c < TWO_64 && data == Codec.Encode(MessageOf(e, c, e.sends[c])) {
      assert MessageOf(e', c, e'.sends[c]) == MessageOf(e, c, e.sends[c]);
    }
  }

  /** A step of e leaves the peer's knowledge of e in place. */
  lemma PeerLinkStays(p: Endpoint, e: Endpoint, e': Endpoint, wire: Traffic)
    requires LinkInv(p, e, wire) && Extends(e, e')
    ensures LinkInv(p, e', wire)
  {
    hide Genuine, Served;
    forall c | c in p.acksOwed
      ensures c in e'.sends && Served(p, e', c)
    {
      ServedStays(p, p, e, e', c);
    }
  }

  /** A step of e that takes up no acknowledgement and closes no channel keeps its own link. */
  lemma OwnLinkStays(e: Endpoint, e': Endpoint, p: Endpoint, wire: Traffic)
    requires LinkInv(e, p, wire) && Extends(e, e')
    requires e'.acksOwed == e.acksOwed && e'.closes == e.closes
    ensures LinkInv(e', p, wire)
  {
    hide Genuine, Served;
    forall data | data in wire
      ensures Genuine(e', data)
    {
      GenuineStays(e, e', data);
    }
    forall c | c in e'.acksOwed
      ensures c in p.sends && Served(e', p, c)
    {
      ServedStays(e, e', p, p, c);
    }
  }

  // ---------------------------------------------------------------- local steps keep the table

  lemma PrepareKeeps(e: Endpoint, payload: seq<byte>, topic: seq<byte>)
    requires TableInv(e) && e.counter + 1 < TWO_64
    requires Marshallable(MessageOf(e, e.counter + 1, SendCall(payload, topic, Prepared)))
    ensures var e' := Prepare(e, payload, topic);
            TableInv(e') && Extends(e, e') && e'.acksOwed == e.acksOwed && e'.closes == e.closes
  {
    hide Marshallable;
    var e' := Prepare(e, payload, topic);
    forall c | c in e'.sends
      ensures Marshallable(MessageOf(e', c, e'.sends[c]))
    {
      if c in e.sends && c != e.counter + 1 {
        assert MessageOf(e', c, e'.sends[c]) == MessageOf(e, c, e.sends[c]);
      } else {
        assert MessageOf(e', c, e'.sends[c]) == MessageOf(e, c, SendCall(payload, topic, Prepared));
      }
    }
  }

  lemma SetStatusKeeps(e: Endpoint, c: nat, status: Status)
    requires TableInv(e) && c in e.sends
    requires e.withAck && status == Returned(Success) ==> c in e.closes
    ensures var e' := SetStatus(e, c, status);
            TableInv(e') && Extends(e, e') && e'.acksOwed == e.acksOwed && e'.closes == e.closes
  {
    hide Marshallable;
    var e' := SetStatus(e, c, status);
    forall d | d in e'.sends
      ensures Marshallable(MessageOf(e', d, e'.sends[d]))
    {
      assert MessageOf(e', d, e'.sends[d]) == MessageOf(e, d, e.sends[d]);
    }
  }

  /** An acknowledgement closes a pending channel once and touches nothing else: unknown, late
      and repeated acknowledgements leave the endpoint as it was. */
  lemma HandleAckKeeps(e: Endpoint, c: nat)
    requires TableInv(e)
    ensures var e' := HandleAck(e, c);
            && TableInv(e') && Extends(e, e')
            && (c in e.pending ==> e'.closes == e.closes + [c])
            && (c !in e.pending ==> e' == e)
            && (forall d | d != c :: (d in e'.pending <==> d in e.pending) && (d in e'.closes <==> d in e.closes))
            && HandleAck(e', c) == e'
  {
    hide Marshallable;
    var e' := HandleAck(e, c);
    if c in e.pending {
      forall d | d in e'.sends
        ensures Marshallable(MessageOf(e', d, e'.sends[d]))
      {
        assert MessageOf(e', d, e'.sends[d]) == MessageOf(e, d, e.sends[d]);
      }
      forall d
        ensures d in e'.closes <==> d in e.closes || d == c
      {
        assert e'.closes[|e.closes|] == c;
      }
    }
  }

  // ---------------------------------------------------------------- receiving

  /** A genuine buffer is classified as what its writer meant. */
  lemma GenuineClassified(p: Endpoint, data: seq<byte>)
    requires TableInv(p) && Genuine(p, data)
    ensures match Classify(data)
            case Ack(c) => c in p.acksOwed
            case Payload(m) => m.counter in p.sends && m == MessageOf(p, m.counter, p.sends[m.counter])
            case _ => false
  {
    hide Codec.Encode, Classify;
    if c :| c in p.sends && c < TWO_64 && data == Codec.Encode(MessageOf(p, c, p.sends[c])) {
      PayloadArrives(MessageOf(p, c, p.sends[c]));
    } else {
      var c :| c in p.acksOwed && c < TWO_64 && data == Codec.Encode(AckMessage(c));
      AckArrives(c);
    }
  }

  lemma TakeAckKeeps(e: Endpoint, p: Endpoint, wire: Traffic, c: nat)
    requires TableInv(e) && LinkInv(e, p, wire) && c in p.acksOwed
    ensures LinkInv(HandleAck(e, c), p, wire)
  {
    hide Genuine, Served;
    HandleAckKeeps(e, c);
    var e' := HandleAck(e, c);
    forall data | data in wire
      ensures Genuine(e', data)
    {
      GenuineStays(e, e', data);
    }
    forall d | d in e'.acksOwed
      ensures d in p.sends && Served(e', p, d)
    {
      ServedStays(e, e', p, p, d);
    }
  }

  lemma TakePayloadKeeps(e: Endpoint, p: Endpoint, wire: Traffic, data: seq<byte>, fails: bool)
    requires TableInv(e) && LinkInv(e, p, wire) && Classify(data).Payload?
    requires var m := Classify(data).message;
             m.counter in p.sends && m == MessageOf(p, m.counter, p.sends[m.counter])
    ensures var e' := Take(e, data, fails);
            TableInv(e') && Extends(e, e') && LinkInv(e', p, wire)
  {
    hide Classify, Marshallable;
    var m := Classify(data).message;
    var e' := Take(e, data, fails);
    forall c | c in e'.sends
      ensures Marshallable(MessageOf(e', c, e'.sends[c]))
    {
      assert MessageOf(e', c, e'.sends[c]) == MessageOf(e, c, e.sends[c]);
    }
    forall d | d in wire
      ensures Genuine(e', d)
    {
      GenuineStays(e, e', d);
    }
    forall c | c in e'.acksOwed
      ensures c in p.sends && Served(e', p, c)
    {
      if c in e.acksOwed {
        ServedStays(e, e', p, p, c);
      } else {
        assert c == m.counter && Serves(e'.calls[|e.calls|], e', p, c);
      }
    }
  }

  lemma TakeKeeps(e: Endpoint, p: Endpoint, wire: Traffic, wireP: Traffic, data: seq<byte>, fails: bool)
    requires TableInv(e) && TableInv(p) && LinkInv(e, p, wire) && LinkInv(p, e, wireP) && data in wireP
    ensures var e' := Take(e, data, fails);
            TableInv(e') && Extends(e, e') && LinkInv(e', p, wire)
  {
    hide Classify, TableInv, Extends, LinkInv;
    assert Genuine(p, data) by { WireIsGenuine(p, e, wireP, data); }
    GenuineClassified(p, data);
    match Classify(data)
    case Ack(c) =>
      TakeAckKeeps(e, p, wire, c);
      HandleAckKeeps(e, c);
    case Payload(m) =>
      TakePayloadKeeps(e, p, wire, data, fails);
  }

  lemma WireIsGenuine(p: Endpoint, e: Endpoint, wire: Traffic, data: seq<byte>)
    requires LinkInv(p, e, wire) && data in wire
    ensures Genuine(p, data)
  {
  }

  // ---------------------------------------------------------------- global steps

  lemma WriteKeeps(e: Endpoint, p: Endpoint, wire: Traffic, c: nat, data: seq<byte>)
    requires LinkInv(e, p, wire) && Genuine(e, data)
    ensures LinkInv(e, p, wire + {data})
  {
    hide Genuine, Served;
  }

  /** Every step keeps the invariant. */
  lemma StepKeeps(s: State, a: Action)
    requires Inv(s) && Enabled(s, a)
    ensures Inv(Step(s, a))
  {
    hide TableInv, LinkInv, Extends, Codec.Encode, Classify, Take, HandleAck, Prepare, SetStatus, Marshallable, Genuine;
    var i := a.i;
    var e, p, wire, wireP := s.ends[i], s.ends[1 - i], s.wires[i], s.wires[1 - i];
    match a
    case Begin(_, payload, topic) =>
      PrepareKeeps(e, payload, topic);
      OwnLinkStays(e, Prepare(e, payload, topic), p, wire);
      PeerLinkStays(p, e, Prepare(e, payload, topic), wireP);
    case Write(_, c, onWire, ok) =>
      var status := if !ok then Returned(WriteError) else if e.withAck then Waiting else Returned(Success);
      SetStatusKeeps(e, c, status);
      var e' := SetStatus(e, c, status);
      OwnLinkStays(e, e', p, wire);
      PeerLinkStays(p, e, e', wireP);
      if onWire {
        var data := Codec.Encode(MessageOf(e, c, e.sends[c]));
        OwnMessageIsGenuine(e, c);
        GenuineStays(e, e', data);
        WriteKeeps(e', p, wire, c, data);
      } else {
        assert wire + {} == wire;
      }
    case Wake(_, c, outcome) =>
      SetStatusKeeps(e, c, Returned(outcome));
      OwnLinkStays(e, SetStatus(e, c, Returned(outcome)), p, wire);
      PeerLinkStays(p, e, SetStatus(e, c, Returned(outcome)), wireP);
    case Receive(_, data, fails) =>
      TakeKeeps(e, p, wire, wireP, data, fails);
      PeerLinkStays(p, e, Take(e, data, fails), wireP);
    case WriteAck(_, c) =>
      OwnAckIsGenuine(e, c);
      WriteKeeps(e, p, wire, c, Codec.Encode(AckMessage(c)));
    case Close(_) =>
      CloseKeeps(e);
      OwnLinkStays(e, e.(closed := true), p, wire);
      PeerLinkStays(p, e, e.(closed := true), wireP);
  }

  lemma OwnMessageIsGenuine(e: Endpoint, c: nat)
    requires c in e.sends && c < TWO_64
    ensures Genuine(e, Codec.Encode(MessageOf(e, c, e.sends[c])))
  {
    hide Codec.Encode;
  }

  lemma OwnAckIsGenuine(e: Endpoint, c: nat)
    requires c in e.acksOwed && c < TWO_64
    ensures Genuine(e, Codec.Encode(AckMessage(c)))
  {
    hide Codec.Encode;
  }

  lemma CloseKeeps(e: Endpoint)
    requires TableInv(e)
    ensures TableInv(e.(closed := true)) && Extends(e, e.(closed := true))
  {
    hide Marshallable;
    var e' := e.(closed := true);
    forall c | c in e'.sends
      ensures Marshallable(MessageOf(e', c, e'.sends[c]))
    {
      assert MessageOf(e', c, e'.sends[c]) == MessageOf(e, c, e.sends[c]);
    }
  }

  // ---------------------------------------------------------------- runs

  lemma {:induction false} RunKeeps(states: seq<State>, actions: seq<Action>, k: nat)
    requires Run(states, actions) && k < |states|
    ensures Inv(states[k])
  {
    hide Step, Enabled;
    if k > 0 {
      RunKeeps(states, actions, k - 1);
      StepKeeps(states[k - 1], actions[k - 1]);
    }
  }

  /** If `Send` returned nil with acknowledgement on, the peer ran `ProcessPayload` for exactly
      that send, on its payload, topic and version, and without error when it blocks on errors. */
  lemma AckSafety(states: seq<State>, actions: seq<Action>, k: nat, i: Side, c: nat)
    requires Run(states, actions) && k < |states| && Shape(states[k])
    requires c in states[k].ends[i].sends
    requires states[k].ends[i].withAck && states[k].ends[i].sends[c].status == Returned(Success)
    ensures Served(states[k].ends[1 - i], states[k].ends[i], c)
  {
    hide TableInv, LinkInv, Run, Served;
    RunKeeps(states, actions, k);
    var s := states[k];
    ReturnedMeansServed(s.ends[i], s.ends[1 - i], s.wires[i], s.wires[1 - i], c);
  }

  lemma ReturnedMeansServed(e: Endpoint, p: Endpoint, wire: Traffic, wireP: Traffic, c: nat)
    requires TableInv(e) && LinkInv(e, p, wire) && LinkInv(p, e, wireP)
    requires c in e.sends && e.withAck && e.sends[c].status == Returned(Success)
    ensures Served(p, e, c)
  {
    hide Marshallable, Genuine, Served;
    assert c in e.closes;
    assert c in p.acksOwed;
  }

  /** In every reachable state the acknowledge table holds exactly the counters drawn and not
      yet acknowledged, and no channel was closed twice. */
  lemma TableExact(states: seq<State>, actions: seq<Action>, k: nat, i: Side)
    requires Run(states, actions) && k < |states| && Shape(states[k])
    ensures var e := states[k].ends[i];
            && (e.withAck ==> e.pending == (set c | 1 <= c <= e.counter && c !in e.closes))
            && (!e.withAck ==> e.pending == {})
            && Distinct(e.closes)
            && (forall c | c in e.closes :: 1 <= c <= e.counter)
  {
    hide TableInv, LinkInv, Run;
    RunKeeps(states, actions, k);
    TableMeans(states[k].ends[i]);
  }

  lemma TableMeans(e: Endpoint)
    requires TableInv(e)
    ensures e.withAck ==> e.pending == (set c | 1 <= c <= e.counter && c !in e.closes)
    ensures !e.withAck ==> e.pending == {}
    ensures Distinct(e.closes) && (forall c | c in e.closes :: 1 <= c <= e.counter)
  {
    hide Marshallable;
  }

  // ---------------------------------------------------------------- what is acknowledged

  /** The acknowledgements that e owes are those of the handler calls that deserve one. */
  ghost predicate OwesExactly(e: Endpoint, p: Endpoint) {
    forall c :: c in e.acksOwed <==> p.withAck && exists j | 0 <= j < |e.calls| :: Deserves(e.calls[j], e.blocking, c)
  }

  /** The call was for message c, and it succeeded or the receiver does not block on errors. */
  predicate Deserves(call: HandlerCall, blocking: bool, c: nat) {
    call.counter == c && (!call.failed || !blocking)
  }

  /** In every reachable state an acknowledgement is owed if and only if the sender asks for
      acknowledgements and some handler call for its counter succeeded, or failed without the
      receiver blocking on errors. */
  lemma {:induction false} OwedExactly(states: seq<State>, actions: seq<Action>, k: nat, i: Side)
    requires Run(states, actions) && k < |states|
    ensures Shape(states[k]) && OwesExactly(states[k].ends[i], states[k].ends[1 - i])
  {
    hide Inv, OwesExactly, Step, Enabled, Init;
    if k == 0 {
      NothingOwed(states[0], i);
    } else {
      OwedExactly(states, actions, k - 1, i);
      RunKeeps(states, actions, k - 1);
      StepKeepsOwed(states[k - 1], actions[k - 1], i);
    }
  }

  lemma NothingOwed(s: State, i: Side)
    requires Init(s)
    ensures Shape(s) && OwesExactly(s.ends[i], s.ends[1 - i])
  {
  }

  lemma StepKeepsOwed(s: State, a: Action, i: Side)
    requires Inv(s) && Enabled(s, a) && OwesExactly(s.ends[i], s.ends[1 - i])
    ensures var s' := Step(s, a); Shape(s') && OwesExactly(s'.ends[i], s'.ends[1 - i])
  {
    hide Marshallable, Classify, Codec.Encode, TableInv, LinkInv, OwesExactly, Take;
    var e, p := s.ends[i], s.ends[1 - i];
    if a.Receive? && a.i == i {
      InvAt(s, 1 - i);
      WireIsGenuine(p, e, s.wires[1 - i], a.data);
      TakeOwes(e, p, a.data, a.fails);
    } else {
      if a.Receive? {
        TakeSetup(p, a.data, a.fails);
      }
      SameOwed(e, p, Step(s, a).ends[i], Step(s, a).ends[1 - i]);
    }
  }

  lemma InvAt(s: State, i: Side)
    requires Inv(s)
    ensures TableInv(s.ends[i]) && LinkInv(s.ends[i], s.ends[1 - i], s.wires[i])
  {
    hide TableInv, LinkInv;
  }

  lemma SameOwed(e: Endpoint, p: Endpoint, e': Endpoint, p': Endpoint)
    requires OwesExactly(e, p)
    requires e'.acksOwed == e.acksOwed && e'.calls == e.calls && e'.blocking == e.blocking && p'.withAck == p.withAck
    ensures OwesExactly(e', p')
  {
  }

  lemma TakeSetup(e: Endpoint, data: seq<byte>, fails: bool)
    ensures Take(e, data, fails).withAck == e.withAck && Take(e, data, fails).blocking == e.blocking
  {
  }

  lemma TakeOwes(e: Endpoint, p: Endpoint, data: seq<byte>, fails: bool)
    requires TableInv(p) && Genuine(p, data) && OwesExactly(e, p)
    ensures OwesExactly(Take(e, data, fails), p)
  {
    hide Classify, Marshallable, TableInv, Genuine, Codec.Encode;
    GenuineClassified(p, data);
    if Classify(data).Payload? {
      var m := Classify(data).message;
      var e' := Take(e, data, fails);
      var n := |e.calls|;
      assert m.withAcknowledge == p.withAck;
      assert e'.calls[n] == HandlerCall(m.counter, m.payload, m.topic, m.version, fails);
      forall c
        ensures c in e'.acksOwed <==> p.withAck && exists j | 0 <= j < |e'.calls| :: Deserves(e'.calls[j], e'.blocking, c)
      {
        if j :| 0 <= j < n && Deserves(e.calls[j], e.blocking, c) {
          assert Deserves(e'.calls[j], e'.blocking, c);
        }
        assert Deserves(e'.calls[n], e'.blocking, c) <==> c == m.counter && (!fails || !e.blocking);
      }
    }
  }

  /** What taking in one of the peer's messages does, whatever the state: one handler call with its
      contents, and an acknowledgement owed if the peer asks for it and the handler succeeded or
      the receiver does not block on errors. */
  lemma ReceiveExactly(e: Endpoint, p: Endpoint, c: nat, fails: bool)
    requires TableInv(p) && c in p.sends && c < TWO_64
    ensures var e' := Take(e, Codec.Encode(MessageOf(p, c, p.sends[c])), fails);
            && e'.calls == e.calls + [HandlerCall(c, p.sends[c].payload, p.sends[c].topic, p.version, fails)]
            && e'.acksOwed == (if p.withAck && (!fails || !e.blocking) then e.acksOwed + {c} else e.acksOwed)
            && e'.pending == e.pending && e'.closes == e.closes && e'.sends == e.sends && e'.counter == e.counter
  {
    hide Classify, Codec.Encode, Marshallable;
    var m := MessageOf(p, c, p.sends[c]);
    assert Marshallable(m);
    ArrivesAsSent(m);
  }

  // ---------------------------------------------------------------- how a send ends

  /** Where the status of a send comes from: the steps that were taken for it. */
  ghost predicate Explained(e: Endpoint, i: Side, c: nat, past: seq<Action>)
    requires c in e.sends
  {
    match e.sends[c].status
    case Prepared => forall w, ok :: Write(i, c, w, ok) !in past
    case Waiting => e.withAck && exists w :: Write(i, c, w, true) in past
    case Returned(WriteError) => exists w :: Write(i, c, w, false) in past
    case Returned(Success) => (exists w :: Write(i, c, w, true) in past) && (e.withAck ==> Wake(i, c, Success) in past)
    case Returned(AckTimeout) => e.withAck && Wake(i, c, AckTimeout) in past
    case Returned(ClosedWithoutAck) => e.withAck && Wake(i, c, ClosedWithoutAck) in past && Close(i) in past
  }

  /** What the steps taken so far say about one endpoint. */
  ghost predicate History(e: Endpoint, i: Side, past: seq<Action>) {
    && (e.closed <==> Close(i) in past)
    && (forall b | b in past && b.Write? && b.i == i :: b.c in e.sends)
    && (forall c | c in e.sends :: Explained(e, i, c, past))
  }

  /** In every reachable state every send has its status for a reason: it returns a write error only
      if the write failed, the error of a closed transceiver only if it was closed, and without
      acknowledgements it never waits. */
  lemma {:induction false} SendsExplained(states: seq<State>, actions: seq<Action>, k: nat, i: Side)
    requires Run(states, actions) && k < |states|
    ensures Shape(states[k]) && History(states[k].ends[i], i, actions[..k])
  {
    hide Step, Enabled, History, Inv;
    if k == 0 {
      NoHistory(states[0], i);
      assert actions[..0] == [];
    } else {
      SendsExplained(states, actions, k - 1, i);
      RunKeeps(states, actions, k - 1);
      assert actions[..k] == actions[..k - 1] + [actions[k - 1]];
      StepExplains(states[k - 1], actions[k - 1], i, actions[..k - 1]);
    }
  }

  lemma NoHistory(s: State, i: Side)
    requires Init(s)
    ensures Shape(s) && History(s.ends[i], i, [])
  {
  }

  lemma StepExplains(s: State, a: Action, i: Side, past: seq<Action>)
    requires Inv(s) && Enabled(s, a) && History(s.ends[i], i, past)
    ensures Shape(Step(s, a)) && History(Step(s, a).ends[i], i, past + [a])
  {
    hide Marshallable, Classify, Codec.Encode, TableInv, LinkInv, History, Take, Prepare, SetStatus;
    var e := s.ends[i];
    var e' := Step(s, a).ends[i];
    if a.i != i {
      OtherStep(e, e, i, past, a);
    } else {
      match a
      case Begin(_, payload, topic) =>
        InvAt(s, i);
        BeginStep(e, i, past, payload, topic);
      case Write(_, c, w, ok) => WriteStep(e, i, past, c, w, ok);
      case Wake(_, c, outcome) => WakeStep(e, i, past, c, outcome);
      case Receive(_, data, fails) =>
        TakeSends(e, data, fails);
        OtherStep(e, e', i, past, a);
      case WriteAck(_, c) => OtherStep(e, e, i, past, a);
      case Close(_) => OtherStep(e, e', i, past, a);
    }
  }

  lemma TakeSends(e: Endpoint, data: seq<byte>, fails: bool)
    ensures var e' := Take(e, data, fails);
            e'.sends == e.sends && e'.withAck == e.withAck && e'.closed == e.closed
  {
    hide Classify;
  }

  lemma Later(e: Endpoint, e': Endpoint, i: Side, c: nat, past: seq<Action>, a: Action)
    requires c in e.sends && Explained(e, i, c, past) && c in e'.sends
    requires e'.sends[c] == e.sends[c] && e'.withAck == e.withAck
    requires !(a.Write? && a.i == i && a.c == c)
    ensures Explained(e', i, c, past + [a])
  {
    forall b | b in past
      ensures b in past + [a]
    {
    }
  }

  lemma OtherStep(e: Endpoint, e': Endpoint, i: Side, past: seq<Action>, a: Action)
    requires History(e, i, past) && e'.sends == e.sends && e'.withAck == e.withAck
    requires !(a.Write? && a.i == i) && (e'.closed <==> e.closed || a == Close(i))
    ensures History(e', i, past + [a])
  {
    hide Explained;
    forall c | c in e'.sends
      ensures Explained(e', i, c, past + [a])
    {
      Later(e, e', i, c, past, a);
    }
  }

  lemma BeginStep(e: Endpoint, i: Side, past: seq<Action>, payload: seq<byte>, topic: seq<byte>)
    requires History(e, i, past) && TableInv(e)
    ensures History(Prepare(e, payload, topic), i, past + [Begin(i, payload, topic)])
  {
    hide Explained, Marshallable;
    var e', a := Prepare(e, payload, topic), Begin(i, payload, topic);
    forall c | c in e'.sends
      ensures Explained(e', i, c, past + [a])
    {
      if c in e.sends {
        Later(e, e', i, c, past, a);
      } else {
        Unwritten(e', i, c, past, a);
      }
    }
  }

  lemma Unwritten(e: Endpoint, i: Side, c: nat, past: seq<Action>, a: Action)
    requires c in e.sends && e.sends[c].status == Prepared && !a.Write?
    requires forall b | b in past && b.Write? && b.i == i :: b.c != c
    ensures Explained(e, i, c, past + [a])
  {
  }

  lemma WriteStep(e: Endpoint, i: Side, past: seq<Action>, c: nat, w: bool, ok: bool)
    requires History(e, i, past) && c in e.sends
    ensures var status := if !ok then Returned(WriteError) else if e.withAck then Waiting else Returned(Success);
            History(SetStatus(e, c, status), i, past + [Write(i, c, w, ok)])
  {
    hide Explained;
    var status := if !ok then Returned(WriteError) else if e.withAck then Waiting else Returned(Success);
    var e', a := SetStatus(e, c, status), Write(i, c, w, ok);
    forall d | d in e'.sends
      ensures Explained(e', i, d, past + [a])
    {
      if d == c {
        Written(e', i, c, past, w, ok);
      } else {
        Later(e, e', i, d, past, a);
      }
    }
  }

  lemma Written(e: Endpoint, i: Side, c: nat, past: seq<Action>, w: bool, ok: bool)
    requires c in e.sends
    requires e.sends[c].status == if !ok then Returned(WriteError) else if e.withAck then Waiting else Returned(Success)
    ensures Explained(e, i, c, past + [Write(i, c, w, ok)])
  {
    assert (past + [Write(i, c, w, ok)])[|past|] == Write(i, c, w, ok);
  }

  lemma WakeStep(e: Endpoint, i: Side, past: seq<Action>, c: nat, outcome: Outcome)
    requires History(e, i, past) && c in e.sends && e.sends[c].status == Waiting && outcome != WriteError
    requires outcome == ClosedWithoutAck ==> e.closed
    ensures History(SetStatus(e, c, Returned(outcome)), i, past + [Wake(i, c, outcome)])
  {
    hide Explained;
    var e', a := SetStatus(e, c, Returned(outcome)), Wake(i, c, outcome);
    forall d | d in e'.sends
      ensures Explained(e', i, d, past + [a])
    {
      if d == c {
        Woken(e, e', i, c, past, outcome);
      } else {
        Later(e, e', i, d, past, a);
      }
    }
  }

  lemma Woken(e: Endpoint, e': Endpoint, i: Side, c: nat, past: seq<Action>, outcome: Outcome)
    requires c in e.sends && e.sends[c].status == Waiting && Explained(e, i, c, past) && outcome != WriteError
    requires outcome == ClosedWithoutAck ==> Close(i) in past
    requires c in e'.sends && e'.sends[c].status == Returned(outcome) && e'.withAck == e.withAck
    ensures Explained(e', i, c, past + [Wake(i, c, outcome)])
  {
    assert (past + [Wake(i, c, outcome)])[|past|] == Wake(i, c, outcome);
    var w :| Write(i, c, w, true) in past;
    assert Write(i, c, w, true) in past + [Wake(i, c, outcome)];
  }

  /** A waiting send is never stuck: it can time out, end when the transceiver is closed, and end
      with success once its acknowledgement was taken in. */
  lemma WaitingCanEnd(s: State, i: Side, c: nat)
    requires Shape(s) && c in s.ends[i].sends && s.ends[i].sends[c].status == Waiting
    ensures Enabled(s, Wake(i, c, AckTimeout))
    ensures s.ends[i].closed ==> Enabled(s, Wake(i, c, ClosedWithoutAck))
    ensures c in s.ends[i].pending ==>
              c in HandleAck(s.ends[i], c).closes
              && Enabled(s.(ends := s.ends[i := HandleAck(s.ends[i], c)]), Wake(i, c, Success))
  {
    var e' := HandleAck(s.ends[i], c);
    if c in s.ends[i].pending {
      assert e'.closes[|s.ends[i].closes|] == c;
    }
  }

  // ---------------------------------------------------------------- one call for each send

  ghost function Succeeded(e: Endpoint): set<nat> {
    set c | c in e.sends && e.sends[c].status == Returned(Success)
  }

  /** A handler call that serves a send. */
  ghost function ServingCall(receiver: Endpoint, sender: Endpoint, c: nat): (k: nat)
    requires c in sender.sends && Served(receiver, sender, c)
    ensures k < |receiver.calls| && Serves(receiver.calls[k], receiver, sender, c)
  {
    var k :| 0 <= k < |receiver.calls| && Serves(receiver.calls[k], receiver, sender, c);
    k
  }

  /** Successful sends have handler calls of their own, even if they carry the same payload. */
  lemma OwnHandlerCalls(states: seq<State>, actions: seq<Action>, k: nat, i: Side) returns (call: map<nat, nat>)
    requires Run(states, actions) && k < |states| && Shape(states[k]) && states[k].ends[i].withAck
    ensures var sender, receiver := states[k].ends[i], states[k].ends[1 - i];
            && call.Keys == Succeeded(sender)
            && (forall c | c in call :: c in sender.sends && call[c] < |receiver.calls|
                                        && Serves(receiver.calls[call[c]], receiver, sender, c))
            && (forall c, d | c in call && d in call && c != d :: call[c] != call[d])
            && |Succeeded(sender)| <= |receiver.calls|
  {
    hide Run, Served;
    var sender, receiver := states[k].ends[i], states[k].ends[1 - i];
    forall c | c in Succeeded(sender)
      ensures Served(receiver, sender, c)
    {
      AckSafety(states, actions, k, i, c);
    }
    call := map c | c in Succeeded(sender) :: ServingCall(receiver, sender, c);
    Pigeonhole(call, |receiver.calls|);
  }

  lemma {:induction false} Pigeonhole(f: map<nat, nat>, n: nat)
    requires forall c | c in f :: f[c] < n
    requires forall c, d | c in f && d in f && c != d :: f[c] != f[d]
    ensures |f.Keys| <= n
    decreases n
  {
    if n == 0 {
      assert f.Keys == {};
    } else if c :| c in f && f[c] == n - 1 {
      Pigeonhole(f - {c}, n - 1);
      assert f.Keys == (f - {c}).Keys + {c};
    } else {
      Pigeonhole(f, n - 1);
    }
  }

  // ---------------------------------------------------------------- the blocking condition is exact

  /** What both ends are set up with at the start stays. */
  lemma {:induction false} SetupStays(states: seq<State>, actions: seq<Action>, k: nat, i: Side)
    requires Run(states, actions) && k < |states|
    ensures Shape(states[0]) && Shape(states[k])
    ensures states[k].ends[i].withAck == states[0].ends[i].withAck
    ensures states[k].ends[i].blocking == states[0].ends[i].blocking
  {
    hide Marshallable, Classify, Codec.Encode;
    if k > 0 {
      SetupStays(states, actions, k - 1, i);
      StepKeepsSetup(states[k - 1], actions[k - 1], i);
    }
  }

  lemma StepKeepsSetup(s: State, a: Action, i: Side)
    requires Shape(s) && Enabled(s, a)
    ensures var s' := Step(s, a);
            Shape(s') && s'.ends[i].withAck == s.ends[i].withAck && s'.ends[i].blocking == s.ends[i].blocking
  {
    hide Marshallable, Classify, Codec.Encode;
  }

  function Pair<T>(i: Side, mine: T, other: T): (r: seq<T>)
    ensures |r| == 2 && r[i] == mine && r[1 - i] == other
  {
    if i == 0 then [mine, other] else [other, mine]
  }

  lemma PairUpdate<T>(i: Side, mine: T, other: T, x: T)
    ensures Pair(i, mine, other)[i := x] == Pair(i, x, other)
    ensures Pair(i, mine, other)[1 - i := x] == Pair(i, mine, x)
  {
  }

  /** The sender has drawn counter 1. */
  function Sent(e: Endpoint, payload: seq<byte>, topic: seq<byte>, status: Status): Endpoint {
    e.(counter := 1, pending := {1}, sends := map[1 := SendCall(payload, topic, status)])
  }

  /** The sender has taken the acknowledgement. */
  function Answered(e: Endpoint, payload: seq<byte>, topic: seq<byte>, status: Status): Endpoint {
    Sent(e, payload, topic, status).(pending := {}, closes := [1])
  }

  /** The receiver's handler returned, with or without an error, and the acknowledgement is owed. */
  function Handled(e: Endpoint, m: Codec.Ws, fails: bool): Endpoint {
    e.(calls := [HandlerCall(m.counter, m.payload, m.topic, m.version, fails)], acksOwed := {m.counter})
  }

  lemma LocalSteps(e: Endpoint, payload: seq<byte>, topic: seq<byte>)
    requires Fresh(e) && e.withAck
    ensures Prepare(e, payload, topic) == Sent(e, payload, topic, Prepared)
    ensures SetStatus(Sent(e, payload, topic, Prepared), 1, Waiting) == Sent(e, payload, topic, Waiting)
    ensures HandleAck(Sent(e, payload, topic, Waiting), 1) == Answered(e, payload, topic, Waiting)
    ensures SetStatus(Answered(e, payload, topic, Waiting), 1, Returned(Success))
         == Answered(e, payload, topic, Returned(Success))
  {
    hide Marshallable, Classify;
    var blank := map[1 := SendCall(payload, topic, Prepared)];
    assert map[][1 := SendCall(payload, topic, Prepared)] == blank;
    assert blank[1 := SendCall(payload, topic, Waiting)] == map[1 := SendCall(payload, topic, Waiting)];
    assert {1} - {1} == {};
  }

  lemma SendingSteps(i: Side, e: Endpoint, p: Endpoint, payload: seq<byte>, topic: seq<byte>, m: Codec.Ws)
    requires Fresh(e) && Fresh(p) && e.withAck
    requires m == MessageOf(e, 1, SendCall(payload, topic, Prepared)) && Marshallable(m)
    ensures var begin, write := Begin(i, payload, topic), Write(i, 1, true, true);
            var s0 := State(Pair(i, e, p), Pair(i, {}, {}));
            var s1 := State(Pair(i, Sent(e, payload, topic, Prepared), p), Pair(i, {}, {}));
            && Init(s0)
            && Enabled(s0, begin) && Step(s0, begin) == s1
            && Enabled(s1, write)
            && Step(s1, write) == State(Pair(i, Sent(e, payload, topic, Waiting), p), Pair(i, {Codec.Encode(m)}, {}))
  {
    hide Codec.Encode, Marshallable, Classify, Prepare, SetStatus, Pair;
    LocalSteps(e, payload, topic);
    var none: Traffic := {};
    PairUpdate(i, e, p, Sent(e, payload, topic, Prepared));
    PairUpdate(i, Sent(e, payload, topic, Prepared), p, Sent(e, payload, topic, Waiting));
    PairUpdate(i, none, none, {Codec.Encode(m)});
    assert none + {Codec.Encode(m)} == {Codec.Encode(m)};
  }

  lemma ReceivingSteps(i: Side, e: Endpoint, p: Endpoint, m: Codec.Ws, fails: bool)
    requires Fresh(p) && !(fails && p.blocking)
    requires Marshallable(m) && m.kind == PAYLOAD_MESSAGE && m.withAcknowledge && m.counter == 1
    ensures var data, ack := Codec.Encode(m), Codec.Encode(AckMessage(1));
            var receive, write := Receive(1 - i, data, fails), WriteAck(1 - i, 1);
            var s2 := State(Pair(i, e, p), Pair(i, {data}, {}));
            var s3 := State(Pair(i, e, Handled(p, m, fails)), Pair(i, {data}, {}));
            && Enabled(s2, receive) && Step(s2, receive) == s3
            && Enabled(s3, write) && Step(s3, write) == State(Pair(i, e, Handled(p, m, fails)), Pair(i, {data}, {ack}))
  {
    hide Codec.Encode, Marshallable, Classify, Prepare, SetStatus, Pair;
    ArrivesAsSent(m);
    var data, ack := Codec.Encode(m), Codec.Encode(AckMessage(1));
    assert Take(p, data, fails) == Handled(p, m, fails);
    var none: Traffic := {};
    PairUpdate(i, e, p, Handled(p, m, fails));
    PairUpdate(i, {data}, none, {ack});
    assert none + {ack} == {ack};
  }

  lemma AnsweringSteps(i: Side, e: Endpoint, p: Endpoint, payload: seq<byte>, topic: seq<byte>, data: seq<byte>)
    requires Fresh(e) && e.withAck
    ensures var ack := Codec.Encode(AckMessage(1));
            var receive, wake := Receive(i, ack, false), Wake(i, 1, Success);
            var wires := Pair(i, {data}, {ack});
            var s4 := State(Pair(i, Sent(e, payload, topic, Waiting), p), wires);
            var s5 := State(Pair(i, Answered(e, payload, topic, Waiting), p), wires);
            && Enabled(s4, receive) && Step(s4, receive) == s5
            && Enabled(s5, wake)
            && Step(s5, wake) == State(Pair(i, Answered(e, payload, topic, Returned(Success)), p), wires)
  {
    hide Codec.Encode, Marshallable, Classify, Prepare, SetStatus, HandleAck, Pair;
    AckArrives(1);
    LocalSteps(e, payload, topic);
    PairUpdate(i, Sent(e, payload, topic, Waiting), p, Answered(e, payload, topic, Waiting));
    PairUpdate(i, Answered(e, payload, topic, Waiting), p, Answered(e, payload, topic, Returned(Success)));
  }

  /** A run of the two ends, the one on side i set up as `sender`, in which a send returned nil
      although no call of the handler for it succeeded. */
  ghost predicate AcknowledgesFailure(states: seq<State>, actions: seq<Action>, i: Side,
                                      sender: Endpoint, receiver: Endpoint)
  {
    && Run(states, actions)
    && states[0].ends == Pair(i, sender, receiver)
    && var s := states[|states| - 1];
       && Shape(s)
       && exists c | c in Succeeded(s.ends[i]) :: FailedFor(s.ends[1 - i], c)
  }

  ghost predicate FailedFor(receiver: Endpoint, c: nat) {
    forall call | call in receiver.calls && call.counter == c :: call.failed
  }

  /** Whatever is sent, from whichever side: unless the handler fails and the receiver blocks on
      errors, there is a run in which the handler is called once and `Send` returns nil. */
  lemma SendCanSucceed(i: Side, e: Endpoint, p: Endpoint, payload: seq<byte>, topic: seq<byte>, fails: bool)
    returns (states: seq<State>, actions: seq<Action>)
    requires Fresh(e) && Fresh(p) && e.withAck && !(fails && p.blocking)
    requires Marshallable(MessageOf(e, 1, SendCall(payload, topic, Prepared)))
    ensures Run(states, actions) && states[0].ends == Pair(i, e, p)
    ensures var s := states[|states| - 1];
            && Shape(s) && 1 in s.ends[i].sends
            && s.ends[i].sends[1] == SendCall(payload, topic, Returned(Success))
            && s.ends[1 - i].calls == [HandlerCall(1, payload, topic, e.version, fails)]
  {
    hide Codec.Encode, Enabled, Step, MessageOf, Init, Marshallable, Pair;
    var m := MessageOf(e, 1, SendCall(payload, topic, Prepared));
    MessageFields(e, payload, topic);
    var data, ack := Codec.Encode(m), Codec.Encode(AckMessage(1));
    var waiting, handled := Sent(e, payload, topic, Waiting), Handled(p, m, fails);
    SendingSteps(i, e, p, payload, topic, m);
    ReceivingSteps(i, waiting, p, m, fails);
    AnsweringSteps(i, e, handled, payload, topic, data);
    states := [State(Pair(i, e, p), Pair(i, {}, {})),
               State(Pair(i, Sent(e, payload, topic, Prepared), p), Pair(i, {}, {})),
               State(Pair(i, waiting, p), Pair(i, {data}, {})),
               State(Pair(i, waiting, handled), Pair(i, {data}, {})),
               State(Pair(i, waiting, handled), Pair(i, {data}, {ack})),
               State(Pair(i, Answered(e, payload, topic, Waiting), handled), Pair(i, {data}, {ack})),
               State(Pair(i, Answered(e, payload, topic, Returned(Success)), handled), Pair(i, {data}, {ack}))];
    actions := [Begin(i, payload, topic), Write(i, 1, true, true), Receive(1 - i, data, fails),
                WriteAck(1 - i, 1), Receive(i, ack, false), Wake(i, 1, Success)];
  }

  /** To a receiver that does not block on errors: `Send` can return nil although the only call of
      the handler failed. */
  lemma FailureCanBeAcknowledged(i: Side, e: Endpoint, p: Endpoint, payload: seq<byte>, topic: seq<byte>)
    returns (states: seq<State>, actions: seq<Action>)
    requires Fresh(e) && Fresh(p) && e.withAck && !p.blocking
    requires Marshallable(MessageOf(e, 1, SendCall(payload, topic, Prepared)))
    ensures AcknowledgesFailure(states, actions, i, e, p)
    ensures var s := states[|states| - 1];
            && Shape(s) && 1 in s.ends[i].sends
            && s.ends[i].sends[1] == SendCall(payload, topic, Returned(Success))
            && s.ends[1 - i].calls == [HandlerCall(1, payload, topic, e.version, true)]
  {
    hide Init, Enabled, Step, MessageOf, Marshallable, Pair;
    states, actions := SendCanSucceed(i, e, p, payload, topic, true);
    var s := states[|states| - 1];
    assert 1 in Succeeded(s.ends[i]) && FailedFor(s.ends[1 - i], 1);
  }

  lemma MessageFields(e: Endpoint, payload: seq<byte>, topic: seq<byte>)
    ensures var m := MessageOf(e, 1, SendCall(payload, topic, Prepared));
            && m.kind == PAYLOAD_MESSAGE && m.withAcknowledge == e.withAck && m.counter == 1
            && m.payload == payload && m.topic == topic && m.version == e.version
  {
  }

  lemma EmptyMessageFits(e: Endpoint)
    ensures Marshallable(MessageOf(e, 1, SendCall([], [], Prepared)))
  {
    hide Codec.Encode, Wire.Sov;
    var m := MessageOf(e, 1, SendCall([], [], Prepared));
    Codec.SizeIsExact(m);
    Wire.SovIsLength(1);
    Wire.SovIsLength(2);
    Wire.SovIsLength(e.version);
    Wire.Uint64Length(1);
    Wire.Uint64Length(2);
    Wire.Uint64Length(e.version);
  }

  /** For every two set-ups with acknowledgement on, a failure can be acknowledged if and only if
      the receiver does not block on errors. */
  lemma BlockingIsExact(i: Side, e: Endpoint, p: Endpoint)
    requires Fresh(e) && Fresh(p) && e.withAck
    ensures (exists states, actions :: AcknowledgesFailure(states, actions, i, e, p)) <==> !p.blocking
  {
    hide Run, Marshallable, Pair, Served;
    if !p.blocking {
      EmptyMessageFits(e);
      var states, actions := FailureCanBeAcknowledged(i, e, p, [], []);
    } else {
      forall states, actions
        ensures !AcknowledgesFailure(states, actions, i, e, p)
      {
        if AcknowledgesFailure(states, actions, i, e, p) {
          BlockingPrevents(states, actions, i, e, p);
        }
      }
    }
  }

  lemma BlockingPrevents(states: seq<State>, actions: seq<Action>, i: Side, e: Endpoint, p: Endpoint)
    requires AcknowledgesFailure(states, actions, i, e, p) && e.withAck
    ensures !p.blocking
  {
    hide Enabled, Step, Init, Pair;
    var k := |states| - 1;
    SetupStays(states, actions, k, i);
    SetupStays(states, actions, k, 1 - i);
    var s := states[k];
    var c :| c in Succeeded(s.ends[i]) && FailedFor(s.ends[1 - i], c);
    AckSafety(states, actions, k, i, c);
    var j :| 0 <= j < |s.ends[1 - i].calls| && Serves(s.ends[1 - i].calls[j], s.ends[1 - i], s.ends[i], c);
    assert s.ends[1 - i].calls[j] in s.ends[1 - i].calls;
  }

  lemma ArrivesAsSent(m: Codec.Ws)
    requires Marshallable(m) && m.kind == PAYLOAD_MESSAGE
    ensures Classify(Codec.Encode(m)) == Payload(m)
  {
    hide Codec.Encode, Classify;
    PayloadArrives(m);
  }
}
