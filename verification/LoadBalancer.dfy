/** The outgoing channel load balancer: three redundant tables kept in step. */
module LoadBalancer {
  import opened Common

  const DEFAULT_CHANNEL := "default send channel"

  datatype Outcome = Done | CannotBeReAdded | CannotBeDeleted | DoesNotExist

  /** A `chan *SendableData`; a removed channel is closed. */
  class SendChannel {
    var closed: bool

    constructor ()
      ensures !closed
    {
      closed := false;
    }

    method Close()
      requires !closed
      modifies this
      ensures closed
    {
      closed := true;
    }
  }

  /** The three tables agree: distinct names, distinct channels, the name table maps each name to
      the channel at its index and knows no other name, and index 0 is the default channel. */
  ghost predicate InStep<C>(names: seq<string>, chans: seq<C>, namesChans: map<string, C>) {
    && |names| == |chans| >= 1
    && names[0] == DEFAULT_CHANNEL
    && Distinct(names) && Distinct(chans)
    && (forall i | 0 <= i < |names| :: names[i] in namesChans && namesChans[names[i]] == chans[i])
    && (forall name | name in namesChans :: name in names)
  }

  lemma RemoveAtFacts<T>(xs: seq<T>, k: nat)
    requires k < |xs| && Distinct(xs)
    ensures var r := RemoveAt(xs, k);
            && |r| == |xs| - 1
            && Distinct(r) && xs[k] !in r
            && (forall i | 0 <= i < |r| :: r[i] == xs[if i < k then i else i + 1])
            && (forall x | x in xs && x != xs[k] :: x in r)
  {
    var r := RemoveAt(xs, k);
    forall x | x in xs && x != xs[k]
      ensures x in r
    {
      var i :| 0 <= i < |xs| && xs[i] == x;
      assert r[if i < k then i else i - 1] == x;
    }
  }

  lemma AppendInStep<C>(names: seq<string>, chans: seq<C>, namesChans: map<string, C>, name: string, ch: C)
    requires InStep(names, chans, namesChans) && name !in names && ch !in chans
    ensures InStep(names + [name], chans + [ch], namesChans[name := ch])
  {
    var ns := names + [name];
    forall n | n in namesChans[name := ch]
      ensures n in ns
    {
      assert ns[|names|] == name;
    }
  }

  lemma RemoveInStep<C>(names: seq<string>, chans: seq<C>, namesChans: map<string, C>, k: nat)
    requires InStep(names, chans, namesChans) && 0 < k < |names|
    ensures InStep(RemoveAt(names, k), RemoveAt(chans, k), namesChans - {names[k]})
    ensures chans[k] !in RemoveAt(chans, k)
  {
    hide RemoveAt;
    RemoveAtFacts(names, k);
    RemoveAtFacts(chans, k);
  }

  class OutgoingChannelLoadBalancer {
    var names: seq<string>
    var chans: seq<SendChannel>
    var namesChans: map<string, SendChannel>

    ghost predicate Valid()
      reads this, chans
    {
      && InStep(names, chans, namesChans)
      && (forall i | 0 <= i < |chans| :: !chans[i].closed)
    }

    constructor ()
      ensures Valid() && names == [DEFAULT_CHANNEL] && fresh(chans[0])
    {
      var ch := new SendChannel();
      names, chans, namesChans := [DEFAULT_CHANNEL], [ch], map[DEFAULT_CHANNEL := ch];
    }

    method AppendChannel(channel: string) returns (ch: SendChannel)
      requires Valid() && channel !in names
      modifies this
      ensures Valid() && fresh(ch)
      ensures names == old(names) + [channel] && chans == old(chans) + [ch]
    {
      ch := new SendChannel();
      AppendInStep(names, chans, namesChans, channel, ch);
      names := names + [channel];
      chans := chans + [ch];
      namesChans := namesChans[channel := ch];
    }

    /** Adding a name twice changes nothing; the default name can not be added. */
    method AddChannel(channel: string) returns (r: Outcome)
      requires Valid()
      modifies this
      ensures Valid()
      ensures r == if channel == DEFAULT_CHANNEL then CannotBeReAdded else Done
      ensures if channel in old(names) then names == old(names) && chans == old(chans)
              else names == old(names) + [channel] && |chans| == |old(chans)| + 1
                   && chans[..|old(chans)|] == old(chans) && fresh(chans[|old(chans)|])
    {
      if channel == DEFAULT_CHANNEL {
        return CannotBeReAdded;
      }
      if channel in namesChans {
        assert channel in names;
        return Done;
      }
      assert channel !in names;
      var ch := AppendChannel(channel);
      return Done;
    }

    /** Removes the entry of the name from all three tables and closes its channel only. */
    method RemoveChannel(channel: string) returns (r: Outcome, ghost index: int)
      requires Valid()
      modifies this, chans
      ensures Valid()
      ensures r == if channel == DEFAULT_CHANNEL then CannotBeDeleted
                   else if channel !in old(names) then DoesNotExist else Done
      ensures r != Done ==> names == old(names) && chans == old(chans) && namesChans == old(namesChans)
      ensures r == Done ==>
                && 0 < index < |old(names)| && old(names)[index] == channel
                && names == RemoveAt(old(names), index) && chans == RemoveAt(old(chans), index)
                && namesChans == old(namesChans) - {channel}
                && old(chans)[index].closed
    {
      index := -1;
      if channel == DEFAULT_CHANNEL {
        return CannotBeDeleted, -1;
      }
      var found := -1;
      for idx := 0 to |names|
        invariant found == -1
        invariant forall k | 0 <= k < idx :: names[k] != channel
      {
        if names[idx] == channel {
          found := idx;
          break;
        }
      }
      if found == -1 {
        return DoesNotExist, -1;
      }
      hide Distinct, RemoveAt;
      var sendableChan := chans[found];
      RemoveInStep(names, chans, namesChans, found);
      chans := RemoveAt(chans, found);
      names := RemoveAt(names, found);
      sendableChan.Close();
      namesChans := namesChans - {channel};
      return Done, found;
    }

    /** The channel of a known name, else the default one; it is never a closed channel. */
    method GetChannelOrDefault(channel: string) returns (ch: SendChannel)
      requires Valid()
      ensures !ch.closed
      ensures forall i | 0 <= i < |names| :: names[i] == channel ==> ch == chans[i]
      ensures channel !in names ==> ch == chans[0]
    {
      if channel in namesChans {
        return namesChans[channel];
      }
      return chans[0];
    }
  }
}
