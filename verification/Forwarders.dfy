/** The forwarder goroutines of the load balancer, as atomic steps. Channels are named by a
    serial number, because a name may be removed and added again. Sends are rendezvous: an item
    is received by the forwarder at the moment it is sent. */
module Forwarders {
  import opened Common
  import opened LoadBalancer

  /** A forwarder waits for an item, holds one that the main channel has not taken, or has
      returned. A closed channel yields nil, held as None. */
  datatype Forwarder<T> = Idle | Holding(item: Option<T>) | Stopped

  datatype State<T> = State(
    next: nat,
    names: seq<string>,
    ids: seq<nat>,
    namesChans: map<string, nat>,
    closed: set<nat>,
    forwarders: map<nat, Forwarder<T>>,
    received: map<nat, seq<T>>,
    collected: seq<(nat, Option<T>)>,
    cancelled: bool)

  datatype Action<T> =
    | Add(name: string)
    | Remove(name: string, index: nat)
    | Send(id: nat, item: T)
    | ReceiveNil(id: nat)
    | Collect(id: nat)
    | Cancel
    | Stop(id: nat)

  /** appendChannel: the new channel gets the next serial number. */
  function Append<T>(s: State<T>, name: string): State<T> {
    var id := s.next;
    s.(next := id + 1,
       names := s.names + [name],
       ids := s.ids + [id],
       namesChans := s.namesChans[name := id],
       forwarders := s.forwarders[id := Idle],
       received := s.received[id := []])
  }

  function Blank<T>(): State<T> {
    State(0, [], [], map[], {}, map[], map[], [], false)
  }

  function Start<T>(): State<T> {
    Append(Blank(), DEFAULT_CHANNEL)
  }

  predicate Enabled<T>(s: State<T>, a: Action<T>) {
    match a
    case Add(name) => name != DEFAULT_CHANNEL && name !in s.namesChans
    case Remove(name, index) =>
      name != DEFAULT_CHANNEL && index < |s.names| && |s.ids| == |s.names| && s.names[index] == name
    case Send(id, _) => id in s.forwarders && id in s.received && s.forwarders[id].Idle? && id !in s.closed
    case ReceiveNil(id) => id in s.forwarders && s.forwarders[id].Idle? && id in s.closed
    case Collect(id) => id in s.forwarders && s.forwarders[id].Holding?
    case Cancel => true
    case Stop(id) => id in s.forwarders && s.forwarders[id].Idle? && s.cancelled
  }

  function Step<T>(s: State<T>, a: Action<T>): State<T>
    requires Enabled(s, a)
  {
    match a
    case Add(name) => Append(s, name)
    case Remove(name, index) =>
      s.(names := RemoveAt(s.names, index), ids := RemoveAt(s.ids, index),
         namesChans := s.namesChans - {name}, closed := s.closed + {s.ids[index]})
    case Send(id, item) =>
      s.(received := s.received[id := s.received[id] + [item]],
         forwarders := s.forwarders[id := Holding(Some(item))])
    case ReceiveNil(id) => s.(forwarders := s.forwarders[id := Holding(None)])
    case Collect(id) =>
      s.(collected := s.collected + [(id, s.forwarders[id].item)], forwarders := s.forwarders[id := Idle])
    case Cancel => s.(cancelled := true)
    case Stop(id) => s.(forwarders := s.forwarders[id := Stopped])
  }

  ghost predicate Run<T(!new)>(states: seq<State<T>>, actions: seq<Action<T>>) {
    && |states| == |actions| + 1
    && states[0] == Start()
    && forall k | 0 <= k < |actions| :: Enabled(states[k], actions[k]) && states[k + 1] == Step(states[k], actions[k])
  }

  // ---------------------------------------------------------------- what is kept

  /** The non-nil items that the collector got from one channel, in order. */
  function FromChannel<T>(collected: seq<(nat, Option<T>)>, id: nat): seq<T> {
    if collected == [] then [] else
    var last := collected[|collected| - 1];
    var before := FromChannel(collected[..|collected| - 1], id);
    if last.0 == id && last.1.Some? then before + [last.1.value] else before
  }

  function Held<T>(f: Forwarder<T>): seq<T> {
    if f.Holding? && f.item.Some? then [f.item.value] else []
  }

  ghost predicate TablesInv<T(!new)>(s: State<T>) {
    && InStep(s.names, s.ids, s.namesChans)
    && s.ids[0] == 0
    && (forall id | id in s.ids :: id in s.forwarders && id !in s.closed)
  }

  ghost predicate FlowInv<T(!new)>(s: State<T>) {
    && s.received.Keys == s.forwarders.Keys
    && (forall id | id in s.forwarders :: id < s.next)
    && (forall id | id in s.forwarders :: s.received[id] == FromChannel(s.collected, id) + Held(s.forwarders[id]))
    && (forall id | id in s.closed :: id in s.forwarders)
    && (forall id | id in s.forwarders && s.forwarders[id] == Holding(None) :: id in s.closed)
    && (forall k | 0 <= k < |s.collected| ::
          s.collected[k].0 in s.forwarders && (s.collected[k].1.None? ==> s.collected[k].0 in s.closed))
  }

  lemma FromChannelAppend<T(!new)>(collected: seq<(nat, Option<T>)>, x: (nat, Option<T>), id: nat)
    ensures FromChannel(collected + [x], id)
         == if x.0 == id && x.1.Some? then FromChannel(collected, id) + [x.1.value] else FromChannel(collected, id)
  {
    assert (collected + [x])[..|collected|] == collected;
  }

  lemma {:induction false} FromUnknown<T(!new)>(collected: seq<(nat, Option<T>)>, id: nat)
    requires forall k | 0 <= k < |collected| :: collected[k].0 != id
    ensures FromChannel(collected, id) == []
  {
    if collected != [] {
      FromUnknown(collected[..|collected| - 1], id);
    }
  }

  lemma AppendTables<T(!new)>(s: State<T>, name: string)
    requires FlowInv(s) && TablesInv(s) && name !in s.names
    ensures TablesInv(Append(s, name))
  {
    hide FromChannel;
    assert s.next !in s.ids;
    AppendInStep(s.names, s.ids, s.namesChans, name, s.next);
  }

  lemma TablesStart<T(!new)>(s: State<T>)
    requires TablesInv(s)
    ensures |s.names| == |s.ids| >= 1
  {
  }

  lemma AppendFlow<T(!new)>(s: State<T>, name: string)
    requires FlowInv(s)
    ensures FlowInv(Append(s, name))
  {
    hide FromChannel, Held;
    IdleHoldsNothing<T>();
    FromUnknown(s.collected, s.next);
  }

  lemma IdleHoldsNothing<T(!new)>()
    ensures Held<T>(Idle) == []
  {
  }

  lemma RemoveTables<T(!new)>(s: State<T>, name: string, index: nat)
    requires TablesInv(s) && Enabled(s, Remove(name, index))
    ensures TablesInv(Step(s, Remove(name, index)))
  {
    hide Distinct, RemoveAt;
    RemoveInStep(s.names, s.ids, s.namesChans, index);
    RemoveAtFacts(s.ids, index);
  }

  lemma RemoveFlow<T(!new)>(s: State<T>, name: string, index: nat)
    requires FlowInv(s) && TablesInv(s) && Enabled(s, Remove(name, index))
    ensures FlowInv(Step(s, Remove(name, index)))
  {
    hide Distinct, RemoveAt, FromChannel, Held;
  }

  lemma SendFlow<T(!new)>(s: State<T>, id: nat, item: T)
    requires FlowInv(s) && Enabled(s, Send(id, item))
    ensures FlowInv(Step(s, Send(id, item)))
  {
    hide FromChannel;
    var s' := Step(s, Send(id, item));
    assert FromChannel(s.collected, id) + [] == FromChannel(s.collected, id);
  }

  lemma CollectFlow<T(!new)>(s: State<T>, id: nat)
    requires FlowInv(s) && Enabled(s, Collect(id))
    ensures FlowInv(Step(s, Collect(id)))
  {
    hide FromChannel;
    var s' := Step(s, Collect(id));
    forall d | d in s'.forwarders
      ensures s'.received[d] == FromChannel(s'.collected, d) + Held(s'.forwarders[d])
    {
      FromChannelAppend(s.collected, (id, s.forwarders[id].item), d);
      assert FromChannel(s'.collected, d) + [] == FromChannel(s'.collected, d);
    }
  }

  lemma IdleFlow<T(!new)>(s: State<T>, id: nat, f: Forwarder<T>)
    requires FlowInv(s) && id in s.forwarders && s.forwarders[id].Idle?
    requires f == Stopped || (f == Holding(None) && id in s.closed)
    ensures FlowInv(s.(forwarders := s.forwarders[id := f]))
  {
    hide FromChannel;
  }

  lemma StepKeeps<T(!new)>(s: State<T>, a: Action<T>)
    requires FlowInv(s) && TablesInv(s) && Enabled(s, a)
    ensures FlowInv(Step(s, a)) && TablesInv(Step(s, a))
  {
    hide FlowInv, TablesInv, RemoveAt, Append;
    match a
    case Add(name) =>
      NameIsNew(s, name);
      AppendTables(s, name);
      AppendFlow(s, name);
    case Remove(name, index) =>
      RemoveTables(s, name, index);
      RemoveFlow(s, name, index);
    case Send(id, item) =>
      SendFlow(s, id, item);
      SameTables(s, Step(s, a));
    case ReceiveNil(id) =>
      IdleFlow(s, id, Holding(None));
      SameTables(s, Step(s, a));
    case Collect(id) =>
      CollectFlow(s, id);
      SameTables(s, Step(s, a));
    case Cancel =>
      CancelFlow(s);
      SameTables(s, Step(s, a));
    case Stop(id) =>
      IdleFlow(s, id, Stopped);
      SameTables(s, Step(s, a));
  }

  lemma NameIsNew<T(!new)>(s: State<T>, name: string)
    requires TablesInv(s) && name !in s.namesChans
    ensures name !in s.names
  {
  }

  lemma SameTables<T(!new)>(s: State<T>, s': State<T>)
    requires TablesInv(s) && s'.names == s.names && s'.ids == s.ids && s'.namesChans == s.namesChans
    requires s'.closed == s.closed && s.forwarders.Keys <= s'.forwarders.Keys
    ensures TablesInv(s')
  {
    hide InStep;
    TablesStart(s);
  }

  lemma CancelFlow<T(!new)>(s: State<T>)
    requires FlowInv(s)
    ensures FlowInv(s.(cancelled := true))
  {
    hide FromChannel, Held;
  }

  lemma StartKeeps<T(!new)>()
    ensures FlowInv(Start<T>()) && TablesInv(Start<T>())
  {
    AppendFlow<T>(Blank(), DEFAULT_CHANNEL);
  }

  lemma {:induction false} RunKeeps<T(!new)>(states: seq<State<T>>, actions: seq<Action<T>>, k: nat)
    requires Run(states, actions) && k < |states|
    ensures FlowInv(states[k]) && TablesInv(states[k])
  {
    hide FlowInv, TablesInv, Step, Enabled;
    if k == 0 {
      StartKeeps<T>();
    } else {
      RunKeeps(states, actions, k - 1);
      StepKeeps(states[k - 1], actions[k - 1]);
    }
  }

  /** In every run, what the collector got from a channel is a prefix of what was received on it,
      short of at most the one item its forwarder holds, and nils come from removed channels only. */
  lemma NothingLostOrReordered<T(!new)>(states: seq<State<T>>, actions: seq<Action<T>>, k: nat, id: nat)
    requires Run(states, actions) && k < |states| && id in states[k].received
    ensures var s := states[k];
            && id in s.forwarders
            && FromChannel(s.collected, id) <= s.received[id]
            && |s.received[id]| - |FromChannel(s.collected, id)| == |Held(s.forwarders[id])| <= 1
            && s.received[id] == FromChannel(s.collected, id) + Held(s.forwarders[id])
    ensures forall j | 0 <= j < |states[k].collected| && states[k].collected[j].1.None? ::
              states[k].collected[j].0 in states[k].closed
  {
    hide FromChannel;
    RunKeeps(states, actions, k);
  }

  /** In every run the tables agree and the default channel stays first. */
  lemma TablesInStep<T(!new)>(states: seq<State<T>>, actions: seq<Action<T>>, k: nat)
    requires Run(states, actions) && k < |states|
    ensures var s := states[k];
            && |s.names| == |s.ids| >= 1 && s.names[0] == DEFAULT_CHANNEL && s.ids[0] == 0
            && InStep(s.names, s.ids, s.namesChans)
  {
    hide FlowInv;
    RunKeeps(states, actions, k);
  }

  // ---------------------------------------------------------------- from the actions alone

  /** The items sent on a channel, in order. */
  function SentOn<T>(actions: seq<Action<T>>, id: nat): seq<T> {
    if actions == [] then [] else
    var n := |actions| - 1;
    var before := SentOn(actions[..n], id);
    if actions[n].Send? && actions[n].id == id then before + [actions[n].item] else before
  }

  function Collections<T>(actions: seq<Action<T>>): nat {
    if actions == [] then 0
    else Collections(actions[..|actions| - 1]) + if actions[|actions| - 1].Collect? then 1 else 0
  }

  /** What the actions so far say about the items. */
  ghost predicate SentInv<T(!new)>(s: State<T>, past: seq<Action<T>>) {
    && (forall id: nat | id in s.received :: id < s.next && s.received[id] == SentOn(past, id))
    && (forall id: nat | id >= s.next :: SentOn(past, id) == [])
    && |s.collected| == Collections(past)
  }

  /** And about the channels. */
  ghost predicate ChannelInv<T(!new)>(s: State<T>, past: seq<Action<T>>) {
    && (forall id: nat :: id in s.ids || id in s.closed <==> id < s.next)
    && (s.cancelled <==> Cancel in past)
    && (forall id: nat | id in s.forwarders && s.forwarders[id].Stopped? :: s.cancelled)
  }

  lemma SentOnAppend<T(!new)>(past: seq<Action<T>>, a: Action<T>, id: nat)
    ensures SentOn(past + [a], id) == if a.Send? && a.id == id then SentOn(past, id) + [a.item] else SentOn(past, id)
    ensures Collections(past + [a]) == Collections(past) + if a.Collect? then 1 else 0
  {
    assert (past + [a])[..|past|] == past;
  }

  lemma StepSends<T(!new)>(s: State<T>, a: Action<T>, past: seq<Action<T>>)
    requires SentInv(s, past) && Enabled(s, a)
    ensures SentInv(Step(s, a), past + [a])
  {
    hide SentOn, Collections, RemoveAt;
    forall id: nat
      ensures SentOn(past + [a], id) == if a.Send? && a.id == id then SentOn(past, id) + [a.item] else SentOn(past, id)
    {
      SentOnAppend(past, a, id);
    }
    SentOnAppend(past, a, 0);
  }

  lemma StepChannels<T(!new)>(s: State<T>, a: Action<T>, past: seq<Action<T>>)
    requires ChannelInv(s, past) && TablesInv(s) && Enabled(s, a)
    ensures ChannelInv(Step(s, a), past + [a])
  {
    hide InStep, RemoveAt;
    TablesStart(s);
    if a.Add? {
      assert forall id: nat :: id in s.ids + [s.next] <==> id in s.ids || id == s.next;
    } else if a.Remove? {
      RemovedIds(s, a.name, a.index);
    }
  }

  lemma RemovedIds<T(!new)>(s: State<T>, name: string, index: nat)
    requires TablesInv(s) && Enabled(s, Remove(name, index))
    ensures |s.ids| > index && forall id: nat :: id in RemoveAt(s.ids, index) <==> id in s.ids && id != s.ids[index]
  {
    RemoveAtFacts(s.ids, index);
    assert forall id | id in RemoveAt(s.ids, index) :: id in s.ids;
  }

  lemma {:induction false} RunLives<T(!new)>(states: seq<State<T>>, actions: seq<Action<T>>, k: nat)
    requires Run(states, actions) && k < |states|
    ensures SentInv(states[k], actions[..k]) && ChannelInv(states[k], actions[..k])
  {
    hide SentInv, ChannelInv, FlowInv, TablesInv, Step, Enabled;
    if k == 0 {
      StartLives<T>();
      assert actions[..0] == [];
    } else {
      RunLives(states, actions, k - 1);
      RunKeeps(states, actions, k - 1);
      StepSends(states[k - 1], actions[k - 1], actions[..k - 1]);
      StepChannels(states[k - 1], actions[k - 1], actions[..k - 1]);
      assert actions[..k] == actions[..k - 1] + [actions[k - 1]];
    }
  }

  lemma StartLives<T(!new)>()
    ensures SentInv(Start<T>(), []) && ChannelInv(Start<T>(), [])
  {
  }

  /** End to end, in every run: the items sent on a channel are the ones collected from it and then
      the one its forwarder holds, and there is one collected object for each collection. */
  lemma SentIsCollected<T(!new)>(states: seq<State<T>>, actions: seq<Action<T>>, k: nat, id: nat)
    requires Run(states, actions) && k < |states| && id in states[k].received
    ensures var s := states[k];
            && id in s.forwarders
            && SentOn(actions[..k], id) == FromChannel(s.collected, id) + Held(s.forwarders[id])
            && |s.collected| == Collections(actions[..k])
  {
    hide FlowInv, TablesInv;
    RunLives(states, actions, k);
    NothingLostOrReordered(states, actions, k, id);
  }

  /** In every run every channel ever made is either in the tables or closed, never both, and a
      forwarder has returned only if the balancer was closed. */
  lemma ListedOrClosed<T(!new)>(states: seq<State<T>>, actions: seq<Action<T>>, k: nat)
    requires Run(states, actions) && k < |states|
    ensures var s := states[k];
            && (forall id: nat :: id < s.next <==> id in s.ids || id in s.closed)
            && (forall id: nat :: !(id in s.ids && id in s.closed))
            && (forall id: nat | id in s.forwarders && s.forwarders[id].Stopped? :: Cancel in actions[..k])
  {
    hide FlowInv;
    RunLives(states, actions, k);
    RunKeeps(states, actions, k);
  }

  /** A removed channel can go on yielding nils; after the balancer is closed an idle forwarder can
      return, and then takes and gives nothing. */
  lemma EndOfChannel<T(!new)>(s: State<T>, id: nat, item: T)
    requires id in s.forwarders && s.forwarders[id].Idle?
    ensures id in s.closed ==>
              && Enabled(s, ReceiveNil(id)) && Enabled(Step(s, ReceiveNil(id)), Collect(id))
              && Step(Step(s, ReceiveNil(id)), Collect(id)).collected == s.collected + [(id, None)]
    ensures var s' := Step(s, Cancel);
            && Enabled(s', Stop(id))
            && !Enabled(Step(s', Stop(id)), Send(id, item)) && !Enabled(Step(s', Stop(id)), Collect(id))
  {
  }
}
