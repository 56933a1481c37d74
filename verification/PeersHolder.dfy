/** The preferred peers holder: four cross-linked maps. A nil slice and an empty one are the
    same here, as the source treats them. */
module PreferredPeers {

  import opened Common

  type ShardID = nat

  const ALL_SHARDS: ShardID := 0xFFFF_FFF0

  datatype PeerInfo = PeerInfo(pid: PeerID, shardID: ShardID)
  datatype PeerIDData = PeerIDData(connectionAddress: string, shardID: ShardID, index: nat)

  datatype Holder = Holder(
    preferred: seq<string>,
    addresses: map<string, seq<PeerInfo>>,
    waiting: map<PeerID, string>,
    shards: map<ShardID, seq<PeerID>>,
    held: map<PeerID, PeerIDData>)

  // ---------------------------------------------------------------- helpers

  predicate OccursAt(s: string, t: string, i: nat) {
    i + |t| <= |s| && s[i..i + |t|] == t
  }

  /** `strings.Contains`. */
  predicate ContainsString(s: string, t: string) {
    exists i | 0 <= i <= |s| :: OccursAt(s, t, i)
  }

  /** `getKnownConnection`: the first preferred address that the given one contains. */
  function KnownConnection(preferred: seq<string>, address: string): string {
    if preferred == [] then ""
    else if ContainsString(address, preferred[0]) then preferred[0]
    else KnownConnection(preferred[1..], address)
  }

  function Infos(h: Holder, address: string): seq<PeerInfo> {
    if address in h.addresses then h.addresses[address] else []
  }

  function ShardList(h: Holder, shard: ShardID): seq<PeerID> {
    if shard in h.shards then h.shards[shard] else []
  }

  /** The position of a peer in an address list, or the length of the list. */
  function Position(infos: seq<PeerInfo>, p: PeerID): (k: nat)
    ensures k <= |infos|
    ensures k < |infos| ==> infos[k].pid == p
    ensures forall i | 0 <= i < k :: infos[i].pid != p
  {
    if infos == [] then 0
    else if infos[0].pid == p then 0
    else 1 + Position(infos[1..], p)
  }

  // ---------------------------------------------------------------- operations

  function AddressPut(h: Holder, p: PeerID, address: string): Holder {
    var known := KnownConnection(h.preferred, address);
    if |known| == 0 then h else
    var infos := Infos(h, known);
    if Position(infos, p) < |infos| then h
    else h.(waiting := h.waiting[p := known],
            addresses := h.addresses[known := infos + [PeerInfo(p, ALL_SHARDS)]])
  }

  function ShardPut(h: Holder, p: PeerID, shard: ShardID): Holder {
    if p !in h.waiting then h else
    var known := h.waiting[p];
    var infos := Infos(h, known);
    var k := Position(infos, p);
    if k == |infos| then h else
    var list := ShardList(h, shard) + [p];
    h.(addresses := h.addresses[known := infos[k := PeerInfo(p, shard)]],
       shards := h.shards[shard := list],
       held := h.held[p := PeerIDData(known, shard, |list| - 1)],
       waiting := h.waiting - {p})
  }

  /** Removing a peer cuts its shard list at the stored index; an index past the end panics
      before anything is changed. */
  predicate RemovePanics(h: Holder, p: PeerID) {
    p in h.held && h.held[p].index >= |ShardList(h, h.held[p].shardID)|
  }

  function WithoutIndex(shards: map<ShardID, seq<PeerID>>, shard: ShardID, index: nat): map<ShardID, seq<PeerID>>
    requires shard in shards && index < |shards[shard]|
  {
    var list := RemoveAt(shards[shard], index);
    if list == [] then shards - {shard} else shards[shard := list]
  }

  function Removed(h: Holder, p: PeerID): Holder {
    if p !in h.held || RemovePanics(h, p) then h else
    var data := h.held[p];
    var infos := Infos(h, data.connectionAddress);
    var k := Position(infos, p);
    h.(shards := WithoutIndex(h.shards, data.shardID, data.index),
       held := h.held - {p},
       addresses := if k < |infos| then h.addresses[data.connectionAddress := RemoveAt(infos, k)] else h.addresses,
       waiting := h.waiting - {p})
  }

  function Cleared(h: Holder): Holder {
    Holder(h.preferred, map[], map[], map[], map[])
  }

  datatype Op =
    | PutAddress(p: PeerID, address: string)
    | PutShard(p: PeerID, shard: ShardID)
    | RemovePeer(p: PeerID)
    | ClearAll

  function Apply(h: Holder, op: Op): Holder {
    match op
    case PutAddress(p, address) => AddressPut(h, p, address)
    case PutShard(p, shard) => ShardPut(h, p, shard)
    case RemovePeer(p) => Removed(h, p)
    case ClearAll => Cleared(h)
  }

  function ApplyAll(h: Holder, ops: seq<Op>): Holder {
    if ops == [] then h else Apply(ApplyAll(h, ops[..|ops| - 1]), ops[|ops| - 1])
  }

  function NewHolder(preferred: seq<string>): Holder {
    Holder(preferred, map address | address in preferred :: [], map[], map[], map[])
  }

  // ---------------------------------------------------------------- what every operation keeps

  ghost predicate DistinctPeers(infos: seq<PeerInfo>) {
    forall i, j | 0 <= i < j < |infos| :: infos[i].pid != infos[j].pid
  }

  ghost predicate Listed(h: Holder, address: string, p: PeerID) {
    Position(Infos(h, address), p) < |Infos(h, address)|
  }

  ghost predicate Inv(h: Holder) {
    && (forall address | address in h.addresses :: DistinctPeers(h.addresses[address]))
    && (forall p | p in h.waiting :: Listed(h, h.waiting[p], p))
    && (forall p | p in h.held :: Listed(h, h.held[p].connectionAddress, p))
  }

  /** The stored index of every held peer is its position in its shard list. */
  ghost predicate Agree(h: Holder) {
    forall p | p in h.held :: InPlace(h, p)
  }

  ghost predicate InPlace(h: Holder, p: PeerID)
    requires p in h.held
  {
    var list := ShardList(h, h.held[p].shardID);
    h.held[p].index < |list| && list[h.held[p].index] == p
  }

  lemma PositionOf(infos: seq<PeerInfo>, p: PeerID, k: nat)
    requires k < |infos| && infos[k].pid == p
    ensures Position(infos, p) < |infos|
  {
  }

  lemma AppendListed(infos: seq<PeerInfo>, x: PeerInfo, q: PeerID)
    requires Position(infos, q) < |infos| || q == x.pid
    ensures Position(infos + [x], q) < |infos + [x]|
  {
    hide Position;
    var all := infos + [x];
    if q == x.pid {
      PositionOf(all, q, |infos|);
    } else {
      var k := Position(infos, q);
      PositionOf(all, q, k);
    }
  }

  lemma RelabelListed(infos: seq<PeerInfo>, k: nat, x: PeerInfo, q: PeerID)
    requires k < |infos| && infos[k].pid == x.pid && Position(infos, q) < |infos|
    ensures Position(infos[k := x], q) < |infos|
  {
    hide Position;
    PositionOf(infos[k := x], q, Position(infos, q));
  }

  lemma RemoveListed(infos: seq<PeerInfo>, k: nat, q: PeerID)
    requires k < |infos| && q != infos[k].pid && Position(infos, q) < |infos|
    ensures Position(RemoveAt(infos, k), q) < |RemoveAt(infos, k)|
  {
    hide Position;
    var i := Position(infos, q);
    PositionOf(RemoveAt(infos, k), q, if i < k then i else i - 1);
  }

  lemma PutAddressKeeps(h: Holder, p: PeerID, address: string)
    requires Inv(h)
    ensures Inv(AddressPut(h, p, address))
  {
    hide Position, KnownConnection;
    var h' := AddressPut(h, p, address);
    var known := KnownConnection(h.preferred, address);
    var infos := Infos(h, known);
    var x := PeerInfo(p, ALL_SHARDS);
    if h' != h {
      forall q, a | Listed(h, a, q) || (q == p && a == known)
        ensures Listed(h', a, q)
      {
        if a == known {
          AppendListed(infos, x, q);
        }
      }
      assert DistinctPeers(infos + [x]) by {
        assert forall i | 0 <= i < |infos| :: infos[i].pid != p;
      }
    }
  }

  lemma ShardPutListed(h: Holder, p: PeerID, shard: ShardID, a: string, q: PeerID)
    requires Listed(h, a, q)
    ensures Listed(ShardPut(h, p, shard), a, q)
  {
    hide Position;
    if p in h.waiting && a == h.waiting[p] && Position(Infos(h, a), p) < |Infos(h, a)| {
      RelabelListed(Infos(h, a), Position(Infos(h, a), p), PeerInfo(p, shard), q);
    }
  }

  lemma PutShardKeeps(h: Holder, p: PeerID, shard: ShardID)
    requires Inv(h)
    ensures Inv(ShardPut(h, p, shard))
  {
    hide Position, Listed;
    var h' := ShardPut(h, p, shard);
    if h' != h {
      forall q | q in h'.waiting
        ensures Listed(h', h'.waiting[q], q)
      {
        ShardPutListed(h, p, shard, h.waiting[q], q);
      }
      forall q | q in h'.held
        ensures Listed(h', h'.held[q].connectionAddress, q)
      {
        ShardPutListed(h, p, shard, if q == p then h.waiting[p] else h.held[q].connectionAddress, q);
      }
      var infos := Infos(h, h.waiting[p]);
      assert DistinctPeers(infos[Position(infos, p) := PeerInfo(p, shard)]);
    }
  }

  lemma RemovedListed(h: Holder, p: PeerID, a: string, q: PeerID)
    requires Listed(h, a, q) && q != p
    ensures Listed(Removed(h, p), a, q)
  {
    hide Position, WithoutIndex, RemovePanics;
    if Removed(h, p) != h && a == h.held[p].connectionAddress && Position(Infos(h, a), p) < |Infos(h, a)| {
      RemoveListed(Infos(h, a), Position(Infos(h, a), p), q);
    }
  }

  lemma RemovedDistinct(h: Holder, p: PeerID, a: string)
    requires (forall address | address in h.addresses :: DistinctPeers(h.addresses[address]))
    requires a in Removed(h, p).addresses
    ensures DistinctPeers(Removed(h, p).addresses[a])
  {
    hide Position, WithoutIndex, RemovePanics;
  }

  lemma RemoveKeeps(h: Holder, p: PeerID)
    requires Inv(h)
    ensures Inv(Removed(h, p))
  {
    hide Position, WithoutIndex, RemovePanics, Listed, DistinctPeers;
    var h' := Removed(h, p);
    if h' != h {
      forall a | a in h'.addresses
        ensures DistinctPeers(h'.addresses[a])
      {
        RemovedDistinct(h, p, a);
      }
      forall q | q in h'.waiting
        ensures Listed(h', h'.waiting[q], q)
      {
        RemovedListed(h, p, h.waiting[q], q);
      }
      forall q | q in h'.held
        ensures Listed(h', h'.held[q].connectionAddress, q)
      {
        RemovedListed(h, p, h.held[q].connectionAddress, q);
      }
    }
  }

  /** In every reachable state address lists are duplicate-free, and each waiting or held peer
      is in the list of its recorded address. */
  lemma {:induction false} ReachableInv(preferred: seq<string>, ops: seq<Op>)
    ensures Inv(ApplyAll(NewHolder(preferred), ops))
  {
    hide Inv, AddressPut, ShardPut, Removed, Cleared;
    if ops == [] {
      NewHolderInv(preferred);
    } else {
      var n := |ops| - 1;
      ReachableInv(preferred, ops[..n]);
      var h := ApplyAll(NewHolder(preferred), ops[..n]);
      match ops[n]
      case PutAddress(p, address) => PutAddressKeeps(h, p, address);
      case PutShard(p, shard) => PutShardKeeps(h, p, shard);
      case RemovePeer(p) => RemoveKeeps(h, p);
      case ClearAll => ClearKeeps(h);
    }
  }

  // ---------------------------------------------------------------- who is preferred

  /** `strings.Contains`, told by what stands around the occurrence. */
  lemma ContainsExactly(s: string, t: string)
    ensures ContainsString(s, t) <==> exists before, after :: s == before + t + after
  {
    if ContainsString(s, t) {
      var i :| 0 <= i <= |s| && OccursAt(s, t, i);
      assert s == s[..i] + t + s[i + |t|..];
    }
    if before, after :| s == before + t + after {
      assert s[|before|..|before| + |t|] == t;
      assert OccursAt(s, t, |before|);
    }
  }

  /** Entry k of the list is the first that the address contains. */
  predicate FirstContained(preferred: seq<string>, address: string, k: nat) {
    && k < |preferred| && ContainsString(address, preferred[k])
    && (forall j | 0 <= j < k :: !ContainsString(address, preferred[j]))
  }

  lemma {:induction false} KnownExactly(preferred: seq<string>, address: string)
    ensures var known := KnownConnection(preferred, address);
            || (known == "" && forall k | 0 <= k < |preferred| :: !ContainsString(address, preferred[k]))
            || (exists k: nat :: FirstContained(preferred, address, k) && known == preferred[k])
  {
    hide ContainsString;
    if preferred != [] {
      if ContainsString(address, preferred[0]) {
        assert FirstContained(preferred, address, 0);
      } else {
        KnownExactly(preferred[1..], address);
        var rest := preferred[1..];
        if k: nat :| FirstContained(rest, address, k) && KnownConnection(rest, address) == rest[k] {
          assert forall j | 0 <= j <= k :: preferred[j + 1] == rest[j];
          assert FirstContained(preferred, address, k + 1);
        }
      }
    }
  }

  /** A connection over no preferred address changes nothing. */
  lemma StrangerIsIgnored(h: Holder, p: PeerID, address: string)
    requires forall k | 0 <= k < |h.preferred| :: !ContainsString(address, h.preferred[k])
    ensures AddressPut(h, p, address) == h
  {
    hide ContainsString;
    KnownExactly(h.preferred, address);
  }

  /** Any other does, exactly when its preferred address does not list the peer yet. */
  lemma PutAddressExactly(h: Holder, p: PeerID, address: string)
    ensures var known := KnownConnection(h.preferred, address);
            && (AddressPut(h, p, address) != h <==> known != "" && !Listed(h, known, p))
            && (AddressPut(h, p, address) != h ==> p in AddressPut(h, p, address).waiting)
  {
    hide Position, KnownConnection;
    var known := KnownConnection(h.preferred, address);
    if known != "" && !Listed(h, known, p) {
      assert |Infos(AddressPut(h, p, address), known)| == |Infos(h, known)| + 1;
    }
  }

  /** Some operation connected the peer over the address. */
  ghost predicate Connected(ops: seq<Op>, p: PeerID, a: string) {
    exists address :: PutAddress(p, address) in ops && ContainsString(address, a)
  }

  ghost predicate Provenance(h: Holder, preferred: seq<string>, ops: seq<Op>) {
    && h.preferred == preferred
    && (forall p | p in h.waiting ::
          h.waiting[p] != "" && h.waiting[p] in preferred && Connected(ops, p, h.waiting[p]))
    && (forall p | p in h.held ::
          var data := h.held[p];
          && data.connectionAddress != "" && data.connectionAddress in preferred
          && Connected(ops, p, data.connectionAddress) && PutShard(p, data.shardID) in ops)
  }

  /** Whoever is waiting or held came over a connection that contains its recorded address, which
      is a preferred one, and whoever is held was given the shard it is held in. */
  lemma {:induction false} OnlyPreferredAreHeld(preferred: seq<string>, ops: seq<Op>)
    ensures Provenance(ApplyAll(NewHolder(preferred), ops), preferred, ops)
  {
    hide Provenance, Apply;
    if ops == [] {
      NothingProven(preferred);
    } else {
      var n := |ops| - 1;
      OnlyPreferredAreHeld(preferred, ops[..n]);
      assert ops == ops[..n] + [ops[n]];
      StepProves(ApplyAll(NewHolder(preferred), ops[..n]), preferred, ops[..n], ops[n]);
    }
  }

  lemma NothingProven(preferred: seq<string>)
    ensures Provenance(NewHolder(preferred), preferred, [])
  {
  }

  lemma ConnectedLater(ops: seq<Op>, op: Op, p: PeerID, a: string)
    requires Connected(ops, p, a)
    ensures Connected(ops + [op], p, a)
  {
    hide ContainsString;
    var address :| PutAddress(p, address) in ops && ContainsString(address, a);
    assert PutAddress(p, address) in ops + [op];
  }

  lemma ConnectedNow(preferred: seq<string>, ops: seq<Op>, p: PeerID, address: string)
    requires KnownConnection(preferred, address) != ""
    ensures KnownConnection(preferred, address) in preferred
    ensures Connected(ops + [PutAddress(p, address)], p, KnownConnection(preferred, address))
  {
    hide ContainsString;
    KnownExactly(preferred, address);
    assert (ops + [PutAddress(p, address)])[|ops|] == PutAddress(p, address);
  }

  lemma StepProves(h: Holder, preferred: seq<string>, ops: seq<Op>, op: Op)
    requires Provenance(h, preferred, ops)
    ensures Provenance(Apply(h, op), preferred, ops + [op])
  {
    hide Position, KnownConnection, Connected, WithoutIndex;
    forall p, a | Connected(ops, p, a)
      ensures Connected(ops + [op], p, a)
    {
      ConnectedLater(ops, op, p, a);
    }
    forall b | b in ops
      ensures b in ops + [op]
    {
    }
    assert (ops + [op])[|ops|] == op;
    if op.PutAddress? && KnownConnection(preferred, op.address) != "" {
      ConnectedNow(preferred, ops, op.p, op.address);
    }
  }

  /** No shard is listed without peers: the last one that goes takes the key with it. */
  lemma {:induction false} ShardsHavePeers(preferred: seq<string>, ops: seq<Op>)
    ensures forall s | s in ApplyAll(NewHolder(preferred), ops).shards ::
              ApplyAll(NewHolder(preferred), ops).shards[s] != []
  {
    hide AddressPut, ShardPut, Removed, Cleared;
    if ops != [] {
      var n := |ops| - 1;
      ShardsHavePeers(preferred, ops[..n]);
      StepKeepsPeers(ApplyAll(NewHolder(preferred), ops[..n]), ops[n]);
    }
  }

  lemma StepKeepsPeers(h: Holder, op: Op)
    requires forall s | s in h.shards :: h.shards[s] != []
    ensures forall s | s in Apply(h, op).shards :: Apply(h, op).shards[s] != []
  {
    hide Position, KnownConnection;
  }

  // ---------------------------------------------------------------- what an operation leaves alone

  /** Removing a peer that is not held changes nothing, even if it is waiting; removing a held one
      touches no other peer, address list or shard list. */
  lemma RemoveLeavesOthers(h: Holder, p: PeerID)
    ensures var h' := Removed(h, p);
            && (p !in h.held ==> h' == h)
            && (p in h.held && !RemovePanics(h, p) ==> p !in h'.held && p !in h'.waiting)
            && h'.preferred == h.preferred
            && (forall q | q != p :: (q in h'.held <==> q in h.held) && (q in h'.waiting <==> q in h.waiting))
            && (forall q | q != p && q in h.held :: h'.held[q] == h.held[q])
            && (forall q | q != p && q in h.waiting :: h'.waiting[q] == h.waiting[q])
            && (forall a | p in h.held && a != h.held[p].connectionAddress :: Infos(h', a) == Infos(h, a))
            && (forall s | p in h.held && s != h.held[p].shardID :: ShardList(h', s) == ShardList(h, s))
  {
    hide Position;
  }

  /** A shard for a peer that is not waiting is ignored. */
  lemma ShardOfStrangerIsIgnored(h: Holder, p: PeerID, shard: ShardID)
    requires p !in h.waiting
    ensures ShardPut(h, p, shard) == h
  {
  }

  lemma NewHolderInv(preferred: seq<string>)
    ensures Inv(NewHolder(preferred)) && Agree(NewHolder(preferred))
  {
  }

  /** Nothing is left but the preferred addresses. */
  lemma ClearKeeps(h: Holder)
    ensures Inv(Cleared(h)) && Agree(Cleared(h))
    ensures Cleared(h) == Holder(h.preferred, map[], map[], map[], map[])
  {
  }

  /** So `PutShardID` always succeeds for a waiting peer: it is appended to the shard list, held
      with that index at the address it waited for, and no longer waiting. */
  lemma WaitingPeerIsHeld(preferred: seq<string>, ops: seq<Op>, p: PeerID, shard: ShardID)
    requires p in ApplyAll(NewHolder(preferred), ops).waiting
    ensures var h := ApplyAll(NewHolder(preferred), ops);
            var h' := ShardPut(h, p, shard);
            && ShardList(h', shard) == ShardList(h, shard) + [p]
            && p in h'.held && h'.held[p] == PeerIDData(h.waiting[p], shard, |ShardList(h, shard)|)
            && p !in h'.waiting && InPlace(h', p)
  {
    hide ApplyAll, NewHolder, Position;
    ReachableInv(preferred, ops);
    var h := ApplyAll(NewHolder(preferred), ops);
    assert Listed(h, h.waiting[p], p);
  }

  // ---------------------------------------------------------------- indices

  lemma PutShardAgrees(h: Holder, p: PeerID, shard: ShardID)
    requires Agree(h)
    ensures Agree(ShardPut(h, p, shard))
  {
    hide Position;
    var h' := ShardPut(h, p, shard);
    forall q | q in h'.held
      ensures InPlace(h', q)
    {
      if q in h.held {
        assert InPlace(h, q);
      }
    }
  }

  lemma PutAddressAgrees(h: Holder, p: PeerID, address: string)
    requires Agree(h)
    ensures Agree(AddressPut(h, p, address))
  {
    hide Position, KnownConnection;
    var h' := AddressPut(h, p, address);
    forall q | q in h'.held
      ensures InPlace(h', q)
    {
      assert InPlace(h, q);
    }
  }

  /** Stored index and position agree in every state reached without Remove. */
  lemma {:induction false} AgreeWithoutRemove(preferred: seq<string>, ops: seq<Op>)
    requires forall op | op in ops :: !op.RemovePeer?
    ensures Agree(ApplyAll(NewHolder(preferred), ops))
  {
    hide Agree, AddressPut, ShardPut, Removed, Cleared;
    if ops == [] {
      NewHolderInv(preferred);
    } else {
      var n := |ops| - 1;
      assert ops[n] in ops && forall op | op in ops[..n] :: op in ops;
      AgreeWithoutRemove(preferred, ops[..n]);
      var h := ApplyAll(NewHolder(preferred), ops[..n]);
      match ops[n]
      case PutAddress(p, address) => PutAddressAgrees(h, p, address);
      case PutShard(p, shard) => PutShardAgrees(h, p, shard);
      case ClearAll => ClearKeeps(h);
    }
  }

  /** No other held peer of the shard has a larger index than p. */
  ghost predicate IsLastOfShard(h: Holder, p: PeerID)
    requires p in h.held
  {
    forall q | q in h.held && q != p && h.held[q].shardID == h.held[p].shardID :: h.held[q].index < h.held[p].index
  }

  lemma RemovedShardList(h: Holder, p: PeerID, shard: ShardID)
    requires p in h.held && !RemovePanics(h, p)
    ensures ShardList(Removed(h, p), shard)
         == if shard == h.held[p].shardID then RemoveAt(ShardList(h, shard), h.held[p].index) else ShardList(h, shard)
  {
    hide Position;
  }

  /** Remove takes an entry of p itself off the shard list exactly when p is in place; otherwise
      it takes somebody else's, or panics. */
  lemma RemoveCutsOwnExactly(h: Holder, p: PeerID)
    requires p in h.held
    ensures var list, list' := ShardList(h, h.held[p].shardID), ShardList(Removed(h, p), h.held[p].shardID);
            InPlace(h, p) <==> p in list && multiset(list') == multiset(list) - multiset{p}
  {
    hide Position, WithoutIndex, Removed, ShardList;
    var shard, index := h.held[p].shardID, h.held[p].index;
    var list, list' := ShardList(h, shard), ShardList(Removed(h, p), shard);
    if RemovePanics(h, p) {
      PanicChangesNothing(h, p);
      assert p in list ==> multiset(list)[p] != (multiset(list) - multiset{p})[p];
    } else {
      RemovedShardList(h, p, shard);
      RemoveOne(list, index);
      if list[index] != p && p in list {
        assert (multiset(list) - multiset{list[index]})[p] != (multiset(list) - multiset{p})[p];
      }
    }
  }

  lemma PanicChangesNothing(h: Holder, p: PeerID)
    requires RemovePanics(h, p)
    ensures Removed(h, p) == h
  {
  }

  /** Another held peer of the shard of p that comes after it, and that its shifted list does not
      hold at the old index. */
  ghost predicate IsShiftedAway(h: Holder, p: PeerID, q: PeerID)
    requires p in h.held
  {
    && q in h.held && q != p && h.held[q].shardID == h.held[p].shardID
    && h.held[q].index > h.held[p].index
    && var list := ShardList(h, h.held[p].shardID);
       !(h.held[q].index + 1 < |list| && list[h.held[q].index + 1] == q)
  }

  /** The exact condition under which Remove keeps the agreement, in every agreeing state. */
  lemma RemoveAgreesExactly(h: Holder, p: PeerID)
    requires Agree(h) && p in h.held
    ensures Agree(Removed(h, p)) <==> forall q | q in h.held :: !IsShiftedAway(h, p, q)
  {
    hide Position, WithoutIndex, Removed, ShardList, RemovePanics;
    assert InPlace(h, p);
    NoPanic(h, p);
    var h', shard, index := Removed(h, p), h.held[p].shardID, h.held[p].index;
    RemovedHeld(h, p);
    RemovedShardList(h, p, shard);
    var list := ShardList(h, shard);
    if q :| q in h.held && IsShiftedAway(h, p, q) {
      assert InPlace(h, q);
      assert !InPlace(h', q);
    } else {
      forall q | q in h'.held
        ensures InPlace(h', q)
      {
        assert InPlace(h, q) && !IsShiftedAway(h, p, q);
        RemovedShardList(h, p, h.held[q].shardID);
      }
    }
  }

  /** In a shard that lists nobody twice: nobody of the shard is behind. */
  lemma RemoveAgreesWhenDistinct(h: Holder, p: PeerID)
    requires Agree(h) && p in h.held && Distinct(ShardList(h, h.held[p].shardID))
    ensures Agree(Removed(h, p)) <==> IsLastOfShard(h, p)
  {
    hide Removed, ShardList;
    RemoveAgreesExactly(h, p);
    assert InPlace(h, p);
    forall q | q in h.held && q != p && h.held[q].shardID == h.held[p].shardID
      ensures IsShiftedAway(h, p, q) <==> h.held[q].index >= h.held[p].index
    {
      assert InPlace(h, q);
    }
  }

  lemma NoPanic(h: Holder, p: PeerID)
    requires p in h.held && InPlace(h, p)
    ensures !RemovePanics(h, p)
  {
  }

  lemma RemovedHeld(h: Holder, p: PeerID)
    requires p in h.held && !RemovePanics(h, p)
    ensures Removed(h, p).held == h.held - {p}
  {
    hide Position;
  }

  /** Removing a peer, and then the last one of its shard, panics: the last one's index was not
      shifted. */
  lemma SecondRemovePanics(h: Holder, p: PeerID, q: PeerID)
    requires Agree(h) && p in h.held && q in h.held && p != q && h.held[p].shardID == h.held[q].shardID
    requires h.held[q].index == |ShardList(h, h.held[q].shardID)| - 1
    ensures RemovePanics(Removed(h, p), q)
  {
    hide Position, WithoutIndex, Removed;
    assert InPlace(h, p) && InPlace(h, q);
    RemovedHeld(h, p);
    RemovedShardList(h, p, h.held[p].shardID);
  }

  lemma CutsCommute(list: seq<PeerID>, i: nat, j: nat)
    requires i <= j && j + 1 < |list|
    ensures RemoveAt(RemoveAt(list, i), j) == RemoveAt(RemoveAt(list, j + 1), i)
  {
  }

  lemma CutLength(list: seq<PeerID>, i: nat)
    requires i < |list|
    ensures |RemoveAt(list, i)| == |list| - 1
  {
  }

  /** What the second of two removals does, when the second peer is behind the first: it panics if
      that peer is the last of its shard, and else cuts the entry after the peer's own. */
  lemma SecondRemove(h: Holder, p: PeerID, q: PeerID)
    requires Agree(h) && p in h.held && q in h.held && h.held[p].shardID == h.held[q].shardID
    requires h.held[p].index < h.held[q].index
    ensures var shard := h.held[p].shardID;
            var list := ShardList(h, shard);
            && (RemovePanics(Removed(h, p), q) <==> h.held[q].index + 1 == |list|)
            && (h.held[q].index + 1 < |list| ==>
                  ShardList(Removed(Removed(h, p), q), shard)
                  == RemoveAt(RemoveAt(list, h.held[q].index + 1), h.held[p].index))
  {
    hide Position, WithoutIndex, Removed, RemoveAt;
    assert InPlace(h, p) && InPlace(h, q);
    var h', shard := Removed(h, p), h.held[p].shardID;
    var list, i, j := ShardList(h, shard), h.held[p].index, h.held[q].index;
    RemovedHeld(h, p);
    RemovedShardList(h, p, shard);
    CutLength(list, i);
    if j + 1 < |list| {
      CutLength(list, j + 1);
      RemovedShardList(h', q, shard);
      CutsCommute(list, i, j);
    }
  }

  /** So the peer right behind the second one loses its entry and stays held, while the entry of
      the second one stays in the list. */
  lemma SecondRemoveCutsNeighbour(h: Holder, p: PeerID, q: PeerID, r: PeerID)
    requires Agree(h) && p in h.held && q in h.held && r in h.held
    requires h.held[p].shardID == h.held[q].shardID == h.held[r].shardID
    requires h.held[p].index < h.held[q].index && h.held[r].index == h.held[q].index + 1
    ensures var shard, h'' := h.held[p].shardID, Removed(Removed(h, p), q);
            && multiset(ShardList(h, shard)) == multiset(ShardList(h'', shard)) + multiset{p} + multiset{r}
            && q !in h''.held && r in h''.held
  {
    hide Position, WithoutIndex, Removed, ShardList, RemovePanics;
    assert InPlace(h, p) && InPlace(h, q) && InPlace(h, r);
    var list, i, j := ShardList(h, h.held[p].shardID), h.held[p].index, h.held[q].index;
    SecondRemove(h, p, q);
    NoPanic(h, p);
    RemovedHeld(h, p);
    RemovedHeld(Removed(h, p), q);
    TwoCuts(list, i, j + 1);
  }

  lemma TwoCuts(list: seq<PeerID>, i: nat, j: nat)
    requires i < j < |list|
    ensures multiset(list) == multiset(RemoveAt(RemoveAt(list, j), i)) + multiset{list[i]} + multiset{list[j]}
  {
    RemoveOne(list, j);
    RemoveOne(RemoveAt(list, j), i);
  }

  // ---------------------------------------------------------------- from a fresh holder

  /** The two calls that make a peer of a preferred connection a held one. */
  function Enlist(p: PeerID, connection: string, shard: ShardID): seq<Op> {
    [PutAddress(p, connection), PutShard(p, shard)]
  }

  /** A peer that is not yet listed under a preferred address gets it, and then a shard. */
  lemma Enlisted(h: Holder, p: PeerID, connection: string, shard: ShardID)
    requires KnownConnection(h.preferred, connection) != ""
    requires !Listed(h, KnownConnection(h.preferred, connection), p)
    ensures var a, h' := KnownConnection(h.preferred, connection), ShardPut(AddressPut(h, p, connection), p, shard);
            && h'.preferred == h.preferred && h'.waiting == h.waiting - {p}
            && Infos(h', a) == Infos(h, a) + [PeerInfo(p, shard)]
            && (forall b | b != a :: Infos(h', b) == Infos(h, b))
            && ShardList(h', shard) == ShardList(h, shard) + [p]
            && h'.held == h.held[p := PeerIDData(a, shard, |ShardList(h, shard)|)]
  {
    hide Position, KnownConnection;
    var a := KnownConnection(h.preferred, connection);
    var infos := Infos(h, a);
    var h1 := AddressPut(h, p, connection);
    var listed := infos + [PeerInfo(p, ALL_SHARDS)];
    assert Infos(h1, a) == listed && h1.waiting[p] == a;
    FirstAt(infos, p, PeerInfo(p, ALL_SHARDS));
    assert listed[|infos| := PeerInfo(p, shard)] == infos + [PeerInfo(p, shard)];
  }

  lemma FirstAt(infos: seq<PeerInfo>, p: PeerID, x: PeerInfo)
    requires Position(infos, p) >= |infos| && x.pid == p
    ensures Position(infos + [x], p) == |infos|
  {
    PositionOf(infos + [x], p, |infos|);
    assert forall i | 0 <= i < |infos| :: (infos + [x])[i] == infos[i];
  }

  lemma NotListed(infos: seq<PeerInfo>, p: PeerID)
    requires forall i | 0 <= i < |infos| :: infos[i].pid != p
    ensures Position(infos, p) == |infos|
  {
  }

  lemma Afresh(preferred: seq<string>, a: string)
    ensures var h := NewHolder(preferred);
            h.preferred == preferred && Infos(h, a) == [] && h.held == map[] && forall s :: ShardList(h, s) == []
    ensures ApplyAll(NewHolder(preferred), []) == NewHolder(preferred)
  {
  }

  lemma TwoEnlisted(preferred: seq<string>, connection: string, p: PeerID, q: PeerID, s: ShardID)
    requires KnownConnection(preferred, connection) != "" && p != q
    ensures var a, h := KnownConnection(preferred, connection),
                        ApplyAll(NewHolder(preferred), Enlist(p, connection, s) + Enlist(q, connection, s));
            && h.preferred == preferred
            && Infos(h, a) == [PeerInfo(p, s), PeerInfo(q, s)]
            && ShardList(h, s) == [p, q]
            && h.held == map[p := PeerIDData(a, s, 0), q := PeerIDData(a, s, 1)]
  {
    hide ApplyAll, AddressPut, ShardPut, Position, KnownConnection, NewHolder;
    var h0, a := NewHolder(preferred), KnownConnection(preferred, connection);
    Afresh(preferred, a);
    NotListed(Infos(h0, a), p);
    Enlisted(h0, p, connection, s);
    ApplyTwo(h0, [], PutAddress(p, connection), PutShard(p, s));
    assert [] + Enlist(p, connection, s) == Enlist(p, connection, s);
    var h2 := ApplyAll(h0, Enlist(p, connection, s));
    NotListed(Infos(h2, a), q);
    Enlisted(h2, q, connection, s);
    ApplyTwo(h0, Enlist(p, connection, s), PutAddress(q, connection), PutShard(q, s));
  }

  /** Two peers of one preferred connection in one shard, in any fresh holder: removing the first
      and then the second panics. */
  lemma PanicIsReachable(preferred: seq<string>, connection: string, p: PeerID, q: PeerID, s: ShardID)
    requires KnownConnection(preferred, connection) != "" && p != q
    ensures var ops := Enlist(p, connection, s) + Enlist(q, connection, s) + [RemovePeer(p)];
            RemovePanics(ApplyAll(NewHolder(preferred), ops), q)
  {
    hide ApplyAll, AddressPut, ShardPut, Removed, Position, NewHolder, KnownConnection;
    var ops := Enlist(p, connection, s) + Enlist(q, connection, s);
    TwoEnlisted(preferred, connection, p, q, s);
    ApplyLast(NewHolder(preferred), ops, RemovePeer(p));
    AgreeWithoutRemove(preferred, ops);
    SecondRemovePanics(ApplyAll(NewHolder(preferred), ops), p, q);
  }

  lemma ThreeEnlisted(preferred: seq<string>, connection: string, p: PeerID, q: PeerID, r: PeerID, s: ShardID)
    requires KnownConnection(preferred, connection) != "" && p != q && p != r && q != r
    ensures var a := KnownConnection(preferred, connection);
            var ops := Enlist(p, connection, s) + Enlist(q, connection, s) + Enlist(r, connection, s);
            var h := ApplyAll(NewHolder(preferred), ops);
            && Agree(h) && ShardList(h, s) == [p, q, r]
            && h.held == map[p := PeerIDData(a, s, 0), q := PeerIDData(a, s, 1), r := PeerIDData(a, s, 2)]
  {
    hide ApplyAll, AddressPut, ShardPut, Removed, Position, Agree, NewHolder, KnownConnection;
    var h0, four := NewHolder(preferred), Enlist(p, connection, s) + Enlist(q, connection, s);
    TwoEnlisted(preferred, connection, p, q, s);
    var h4 := ApplyAll(h0, four);
    NotListed(Infos(h4, KnownConnection(preferred, connection)), r);
    Enlisted(h4, r, connection, s);
    ApplyTwo(h0, four, PutAddress(r, connection), PutShard(r, s));
    AgreeWithoutRemove(preferred, four + Enlist(r, connection, s));
  }

  /** Three such peers: removing the first and then the second leaves the second in the shard list
      and the third, which is still held, out of it. */
  lemma WrongCutIsReachable(preferred: seq<string>, connection: string, p: PeerID, q: PeerID, r: PeerID, s: ShardID)
    requires KnownConnection(preferred, connection) != "" && p != q && p != r && q != r
    ensures var ops := Enlist(p, connection, s) + Enlist(q, connection, s) + Enlist(r, connection, s)
                     + [RemovePeer(p), RemovePeer(q)];
            var h := ApplyAll(NewHolder(preferred), ops);
            && ShardList(h, s) == [q]
            && h.held == map[r := PeerIDData(KnownConnection(preferred, connection), s, 2)]
            && RemovePanics(h, r)
  {
    hide ApplyAll, AddressPut, ShardPut, Removed, Position, Agree, NewHolder, KnownConnection;
    var six := Enlist(p, connection, s) + Enlist(q, connection, s) + Enlist(r, connection, s);
    ThreeEnlisted(preferred, connection, p, q, r, s);
    var h6 := ApplyAll(NewHolder(preferred), six);
    ApplyTwo(NewHolder(preferred), six, RemovePeer(p), RemovePeer(q));
    AgreeAt(h6, p);
    AgreeAt(h6, q);
    SecondRemove(h6, p, q);
    assert RemoveAt(RemoveAt([p, q, r], 2), 0) == [q];
    RemovedHeld(h6, p);
    RemovedHeld(Removed(h6, p), q);
    assert h6.held - {p} - {q} == map[r := h6.held[r]];
  }

  lemma AgreeAt(h: Holder, p: PeerID)
    requires Agree(h) && p in h.held
    ensures InPlace(h, p) && !RemovePanics(h, p)
  {
    NoPanic(h, p);
  }

  // ---------------------------------------------------------------- two preferred addresses

  /** A removed peer that connects again is taken up exactly when the address it comes from is the
      one recorded for it, or does not list it: Remove clears no other address. */
  lemma TakenUpAgainExactly(h: Holder, p: PeerID, connection: string)
    requires p in h.held && !RemovePanics(h, p) && KnownConnection(h.preferred, connection) != ""
    ensures var a := KnownConnection(h.preferred, connection);
            Inv(h) ==> (p in AddressPut(Removed(h, p), p, connection).waiting
                        <==> a == h.held[p].connectionAddress || !Listed(h, a, p))
  {
    hide Position, WithoutIndex, KnownConnection;
    var h', a := Removed(h, p), KnownConnection(h.preferred, connection);
    if Inv(h) && a == h.held[p].connectionAddress {
      assert Listed(h, a, p);
      OnlyEntry(h.addresses[a], p);
      assert Infos(h', a) == RemoveAt(h.addresses[a], Position(h.addresses[a], p));
    }
  }

  lemma OnlyEntry(infos: seq<PeerInfo>, p: PeerID)
    requires DistinctPeers(infos) && Position(infos, p) < |infos|
    ensures var rest := RemoveAt(infos, Position(infos, p)); Position(rest, p) == |rest|
  {
    hide Position;
    NotListed(RemoveAt(infos, Position(infos, p)), p);
  }

  /** In any fresh holder with two preferred connections: a peer that used both is removed, comes
      back over the first, and is ignored. */
  lemma IgnoredIsReachable(preferred: seq<string>, first: string, second: string, p: PeerID, s: ShardID, t: ShardID)
    requires var a, b := KnownConnection(preferred, first), KnownConnection(preferred, second);
             a != "" && b != "" && a != b
    ensures var h := ApplyAll(NewHolder(preferred), Enlist(p, first, s) + Enlist(p, second, t) + [RemovePeer(p)]);
            p !in h.held && p !in h.waiting && AddressPut(h, p, first) == h
  {
    hide ApplyAll, AddressPut, ShardPut, Removed, Position, NewHolder, KnownConnection;
    var h0, a, b := NewHolder(preferred), KnownConnection(preferred, first), KnownConnection(preferred, second);
    Afresh(preferred, a);
    Afresh(preferred, b);
    NotListed([], p);
    Enlisted(h0, p, first, s);
    ApplyTwo(h0, [], PutAddress(p, first), PutShard(p, s));
    assert [] + Enlist(p, first, s) == Enlist(p, first, s);
    var h2 := ApplyAll(h0, Enlist(p, first, s));
    Enlisted(h2, p, second, t);
    var ops := Enlist(p, first, s) + Enlist(p, second, t);
    ApplyTwo(h0, Enlist(p, first, s), PutAddress(p, second), PutShard(p, t));
    var h4 := ApplyAll(h0, ops);
    ApplyLast(h0, ops, RemovePeer(p));
    AgreeWithoutRemove(preferred, ops);
    ReachableInv(preferred, ops);
    AgreeAt(h4, p);
    RemovedHeld(h4, p);
    assert Infos(h4, a) == [PeerInfo(p, s)];
    PositionOf(Infos(h4, a), p, 0);
    IgnoredElsewhere(h4, p, first);
  }

  lemma IgnoredElsewhere(h: Holder, p: PeerID, connection: string)
    requires p in h.held && !RemovePanics(h, p)
    requires var a := KnownConnection(h.preferred, connection);
             a != "" && a != h.held[p].connectionAddress && Listed(h, a, p)
    ensures var h' := Removed(h, p);
            p !in h'.waiting && AddressPut(h', p, connection) == h'
  {
    hide Position, WithoutIndex, KnownConnection;
  }

  lemma ApplyTwo(h: Holder, ops: seq<Op>, a: Op, b: Op)
    ensures ApplyAll(h, ops + [a, b]) == Apply(Apply(ApplyAll(h, ops), a), b)
  {
    hide Apply;
    ApplyLast(h, ops, a);
    ApplyLast(h, ops + [a], b);
    assert ops + [a] + [b] == ops + [a, b];
  }

  lemma ApplyLast(h: Holder, ops: seq<Op>, op: Op)
    ensures ApplyAll(h, ops + [op]) == Apply(ApplyAll(h, ops), op)
  {
    hide Apply;
    assert (ops + [op])[..|ops|] == ops;
  }

  // ---------------------------------------------------------------- the holder object

  class PeersHolder {
    const preferredConnAddresses: seq<string>
    var connAddrToPeersInfo: map<string, seq<PeerInfo>>
    var tempPeerIDsWaitingForShard: map<PeerID, string>
    var peerIDsPerShard: map<ShardID, seq<PeerID>>
    var peerIDs: map<PeerID, PeerIDData>

    function Contents(): Holder
      reads this
    {
      Holder(preferredConnAddresses, connAddrToPeersInfo, tempPeerIDsWaitingForShard, peerIDsPerShard, peerIDs)
    }

    constructor (preferred: seq<string>)
      ensures Contents() == NewHolder(preferred)
    {
      preferredConnAddresses := preferred;
      connAddrToPeersInfo := map address | address in preferred :: [];
      tempPeerIDsWaitingForShard, peerIDsPerShard, peerIDs := map[], map[], map[];
    }

    /** The first preferred address that the given one contains, or nothing. */
    method GetKnownConnection(address: string) returns (known: string)
      ensures known == KnownConnection(preferredConnAddresses, address)
      ensures || (known == "" && forall k | 0 <= k < |preferredConnAddresses| ::
                                   !ContainsString(address, preferredConnAddresses[k]))
              || (exists k: nat :: FirstContained(preferredConnAddresses, address, k) && known == preferredConnAddresses[k])
    {
      KnownExactly(preferredConnAddresses, address);
      assert preferredConnAddresses[0..] == preferredConnAddresses;
      for i := 0 to |preferredConnAddresses|
        invariant KnownConnection(preferredConnAddresses[i..], address) == KnownConnection(preferredConnAddresses, address)
      {
        assert preferredConnAddresses[i..][1..] == preferredConnAddresses[i + 1..];
        if ContainsString(address, preferredConnAddresses[i]) {
          return preferredConnAddresses[i];
        }
      }
      return "";
    }

    method PositionForPeer(infos: seq<PeerInfo>, p: PeerID) returns (k: nat)
      ensures k == Position(infos, p)
    {
      for i := 0 to |infos|
        invariant forall j | 0 <= j < i :: infos[j].pid != p
      {
        if infos[i].pid == p {
          return i;
        }
      }
      return |infos|;
    }

    method PutConnectionAddress(p: PeerID, address: string)
      modifies this
      ensures Contents() == AddressPut(old(Contents()), p, address)
    {
      var known := GetKnownConnection(address);
      if |known| == 0 {
        return;
      }
      var infos := Infos(Contents(), known);
      var k := PositionForPeer(infos, p);
      if k == |infos| {
        tempPeerIDsWaitingForShard := tempPeerIDsWaitingForShard[p := known];
        connAddrToPeersInfo := connAddrToPeersInfo[known := infos + [PeerInfo(p, ALL_SHARDS)]];
      }
    }

    method PutShardID(p: PeerID, shard: ShardID)
      modifies this
      ensures Contents() == ShardPut(old(Contents()), p, shard)
    {
      if p !in tempPeerIDsWaitingForShard {
        return;
      }
      var known := tempPeerIDsWaitingForShard[p];
      var infos := Infos(Contents(), known);
      var k := PositionForPeer(infos, p);
      if k == |infos| {
        return;
      }
      var list := ShardList(Contents(), shard) + [p];
      connAddrToPeersInfo := connAddrToPeersInfo[known := infos[k := infos[k].(shardID := shard)]];
      peerIDsPerShard := peerIDsPerShard[shard := list];
      peerIDs := peerIDs[p := PeerIDData(known, shard, |list| - 1)];
      tempPeerIDsWaitingForShard := tempPeerIDsWaitingForShard - {p};
    }

    method RemovePeerFromMapAtIndex(shard: ShardID, index: nat)
      requires shard in peerIDsPerShard && index < |peerIDsPerShard[shard]|
      modifies this`peerIDsPerShard
      ensures peerIDsPerShard == WithoutIndex(old(peerIDsPerShard), shard, index)
    {
      peerIDsPerShard := peerIDsPerShard[shard := RemoveAt(peerIDsPerShard[shard], index)];
      if |peerIDsPerShard[shard]| == 0 {
        peerIDsPerShard := peerIDsPerShard - {shard};
      }
    }

    /** `panicked` stands for the slice bounds panic of a stale index. */
    method Remove(p: PeerID) returns (panicked: bool)
      modifies this
      ensures panicked <==> RemovePanics(old(Contents()), p)
      ensures Contents() == Removed(old(Contents()), p)
    {
      if p !in peerIDs {
        return false;
      }
      var data := peerIDs[p];
      if data.index >= |ShardList(Contents(), data.shardID)| {
        return true;
      }
      RemovePeerFromMapAtIndex(data.shardID, data.index);
      peerIDs := peerIDs - {p};
      var infos := Infos(Contents(), data.connectionAddress);
      var k := PositionForPeer(infos, p);
      if k < |infos| {
        connAddrToPeersInfo := connAddrToPeersInfo[data.connectionAddress := RemoveAt(infos, k)];
      }
      if p in tempPeerIDsWaitingForShard {
        tempPeerIDsWaitingForShard := tempPeerIDsWaitingForShard - {p};
      }
      return false;
    }

    method Clear()
      modifies this
      ensures Contents() == Cleared(old(Contents()))
      ensures connAddrToPeersInfo == map[] && tempPeerIDsWaitingForShard == map[]
      ensures peerIDsPerShard == map[] && peerIDs == map[]
    {
      tempPeerIDsWaitingForShard, peerIDsPerShard, peerIDs, connAddrToPeersInfo := map[], map[], map[], map[];
    }
  }
}
