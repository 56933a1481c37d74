/** The lists sharder: peers fall into six classes, spare capacity flows down a chain of them,
    and each class evicts its farthest peers. */
module ListsSharder {
  import opened Common
  import opened Eviction

  const MIN_CONNECTED_PEERS: nat := 5
  const MIN_VALIDATORS: nat := 1
  const MIN_OBSERVERS: nat := 1
  const MIN_UNKNOWN: nat := 1

  datatype Class =
    | IntraValidators
    | CrossValidators
    | IntraObservers
    | CrossObservers
    | Seeders
    | Unknown

  // ---------------------------------------------------------------- slots

  datatype Config = Config(
    targetPeerCount: nat,
    maxIntraShardValidators: nat,
    maxCrossShardValidators: nat,
    maxIntraShardObservers: nat,
    maxCrossShardObservers: nat,
    maxSeeders: nat)

  /** A number for each class. */
  datatype Counts = Counts(
    intraValidators: nat,
    crossValidators: nat,
    intraObservers: nat,
    crossObservers: nat,
    seeders: nat,
    unknown: nat)
  {
    function Get(cls: Class): nat {
      match cls
      case IntraValidators => intraValidators
      case CrossValidators => crossValidators
      case IntraObservers => intraObservers
      case CrossObservers => crossObservers
      case Seeders => seeders
      case Unknown => unknown
    }

    function NonSeeders(): nat {
      intraValidators + crossValidators + intraObservers + crossObservers + unknown
    }

    function Total(): nat {
      NonSeeders() + seeders
    }

    /** The sum over the classes at or before `cls` in the chain. */
    function UpTo(cls: Class): nat {
      match cls
      case IntraValidators => intraValidators
      case CrossValidators => intraValidators + crossValidators
      case IntraObservers => intraValidators + crossValidators + intraObservers
      case CrossObservers => intraValidators + crossValidators + intraObservers + crossObservers
      case Seeders => seeders
      case Unknown => intraValidators + crossValidators + intraObservers + crossObservers + unknown
    }

    /** The same numbers with one more in class `cls`. */
    function Plus(cls: Class): Counts {
      match cls
      case IntraValidators => this.(intraValidators := intraValidators + 1)
      case CrossValidators => this.(crossValidators := crossValidators + 1)
      case IntraObservers => this.(intraObservers := intraObservers + 1)
      case CrossObservers => this.(crossObservers := crossObservers + 1)
      case Seeders => this.(seeders := seeders + 1)
      case Unknown => this.(unknown := unknown + 1)
    }
  }

  /** `processNumConnections`: whatever is not assigned goes to unknown peers. */
  function ProcessNumConnections(c: Config): Option<Counts> {
    var provided := c.maxIntraShardValidators + c.maxCrossShardValidators
                  + c.maxIntraShardObservers + c.maxCrossShardObservers + c.maxSeeders;
    if provided + MIN_UNKNOWN > c.targetPeerCount then None
    else Some(Counts(c.maxIntraShardValidators, c.maxCrossShardValidators, c.maxIntraShardObservers,
                     c.maxCrossShardObservers, c.maxSeeders, c.targetPeerCount - provided))
  }

  /** The limits that `NewListsSharder` accepts. */
  function NewLimits(c: Config): Option<Counts> {
    if c.targetPeerCount < MIN_CONNECTED_PEERS
       || c.maxIntraShardValidators < MIN_VALIDATORS || c.maxCrossShardValidators < MIN_VALIDATORS
       || c.maxIntraShardObservers < MIN_OBSERVERS || c.maxCrossShardObservers < MIN_OBSERVERS
    then None
    else ProcessNumConnections(c)
  }

  function ComputeUsedAndSpare(existing: nat, maximum: nat): (nat, nat) {
    if existing < maximum then (existing, maximum - existing) else (maximum, 0)
  }

  datatype Allocation = Allocation(keep: Counts, spare: nat)

  /** The chain intra validators, cross validators, intra observers, cross observers, unknown;
      seeders stand apart. */
  function Allocate(max: Counts, n: Counts): Allocation {
    var (iv, r1) := ComputeUsedAndSpare(n.intraValidators, max.intraValidators);
    var (cv, r2) := ComputeUsedAndSpare(n.crossValidators, max.crossValidators + r1);
    var (io, r3) := ComputeUsedAndSpare(n.intraObservers, max.intraObservers + r2);
    var (co, r4) := ComputeUsedAndSpare(n.crossObservers, max.crossObservers + r3);
    var (sd, _) := ComputeUsedAndSpare(n.seeders, max.seeders);
    var (un, r5) := ComputeUsedAndSpare(n.unknown, max.unknown + r4);
    Allocation(Counts(iv, cv, io, co, sd, un), r5)
  }

  /** Which configurations are accepted, and the limit each class then gets. */
  lemma LimitsExactly(c: Config)
    ensures var provided := c.maxIntraShardValidators + c.maxCrossShardValidators
                          + c.maxIntraShardObservers + c.maxCrossShardObservers + c.maxSeeders;
            && (ProcessNumConnections(c).Some? <==> provided < c.targetPeerCount)
            && (NewLimits(c).Some? <==>
                  && c.targetPeerCount >= 5 && provided < c.targetPeerCount
                  && c.maxIntraShardValidators >= 1 && c.maxCrossShardValidators >= 1
                  && c.maxIntraShardObservers >= 1 && c.maxCrossShardObservers >= 1)
            && (NewLimits(c).Some? ==> NewLimits(c) == ProcessNumConnections(c))
            && (ProcessNumConnections(c).Some? ==>
                  var max := ProcessNumConnections(c).value;
                  && max.Get(IntraValidators) == c.maxIntraShardValidators
                  && max.Get(CrossValidators) == c.maxCrossShardValidators
                  && max.Get(IntraObservers) == c.maxIntraShardObservers
                  && max.Get(CrossObservers) == c.maxCrossShardObservers
                  && max.Get(Seeders) == c.maxSeeders
                  && max.Get(Unknown) == c.targetPeerCount - provided)
  {
  }

  /** Slots are given out in the order of the chain: no class keeps more than it has, no prefix of
      the chain keeps more than its limits add up to, and a class goes short only when the prefix
      up to it is full. */
  ghost predicate Greedy(max: Counts, n: Counts, keep: Counts) {
    forall cls: Class ::
      && keep.Get(cls) <= n.Get(cls) && keep.UpTo(cls) <= max.UpTo(cls)
      && (keep.Get(cls) < n.Get(cls) ==> keep.UpTo(cls) == max.UpTo(cls))
  }

  lemma UsedExactly(existing: nat, maximum: nat, used: nat)
    ensures var (u, r) := ComputeUsedAndSpare(existing, maximum);
            u + r == maximum && (used == u <==> used <= existing && used <= maximum && (used < existing ==> used == maximum))
  {
  }

  /** Greedy, link by link. */
  predicate GreedyLinks(max: Counts, n: Counts, k: Counts) {
    var m1 := max.intraValidators;
    var m2 := max.crossValidators + m1 - k.intraValidators;
    var m3 := max.intraObservers + m2 - k.crossValidators;
    var m4 := max.crossObservers + m3 - k.intraObservers;
    var m5 := max.unknown + m4 - k.crossObservers;
    && Fills(n.intraValidators, m1, k.intraValidators)
    && Fills(n.crossValidators, m2, k.crossValidators)
    && Fills(n.intraObservers, m3, k.intraObservers)
    && Fills(n.crossObservers, m4, k.crossObservers)
    && Fills(n.unknown, m5, k.unknown)
    && Fills(n.seeders, max.seeders, k.seeders)
  }

  predicate Fills(existing: int, maximum: int, used: int) {
    used <= existing && used <= maximum && (used < existing ==> used == maximum)
  }

  lemma GreedyByLinks(max: Counts, n: Counts, k: Counts)
    ensures Greedy(max, n, k) <==> GreedyLinks(max, n, k)
  {
    if Greedy(max, n, k) {
      assert k.Get(IntraValidators) <= n.Get(IntraValidators) && k.Get(CrossValidators) <= n.Get(CrossValidators);
      assert k.Get(IntraObservers) <= n.Get(IntraObservers) && k.Get(CrossObservers) <= n.Get(CrossObservers);
      assert k.Get(Seeders) <= n.Get(Seeders) && k.Get(Unknown) <= n.Get(Unknown);
    }
  }

  /** There is one such allocation, and it is the one that is computed. */
  lemma AllocationIsGreedy(max: Counts, n: Counts, keep: Counts)
    ensures Greedy(max, n, keep) <==> keep == Allocate(max, n).keep
  {
    hide ComputeUsedAndSpare, Greedy;
    GreedyByLinks(max, n, keep);
    var r1 := ComputeUsedAndSpare(n.intraValidators, max.intraValidators).1;
    var r2 := ComputeUsedAndSpare(n.crossValidators, max.crossValidators + r1).1;
    var r3 := ComputeUsedAndSpare(n.intraObservers, max.intraObservers + r2).1;
    var r4 := ComputeUsedAndSpare(n.crossObservers, max.crossObservers + r3).1;
    UsedExactly(n.intraValidators, max.intraValidators, keep.intraValidators);
    UsedExactly(n.crossValidators, max.crossValidators + r1, keep.crossValidators);
    UsedExactly(n.intraObservers, max.intraObservers + r2, keep.intraObservers);
    UsedExactly(n.crossObservers, max.crossObservers + r3, keep.crossObservers);
    UsedExactly(n.unknown, max.unknown + r4, keep.unknown);
    UsedExactly(n.seeders, max.seeders, keep.seeders);
  }

  /** Every class is sure of its own limit. */
  lemma OwnLimitIsKept(max: Counts, n: Counts, cls: Class)
    ensures var keep := Allocate(max, n).keep.Get(cls);
            keep >= if n.Get(cls) < max.Get(cls) then n.Get(cls) else max.Get(cls)
  {
  }

  lemma AllocationConserves(c: Config, n: Counts)
    requires ProcessNumConnections(c).Some?
    ensures var max := ProcessNumConnections(c).value;
            var a := Allocate(max, n);
            && max.Total() == c.targetPeerCount && max.unknown >= MIN_UNKNOWN
            && (forall cls: Class :: a.keep.Get(cls) <= n.Get(cls))
            && a.keep.seeders <= c.maxSeeders
            && a.keep.NonSeeders() + a.spare == max.NonSeeders()
            && a.keep.Total() <= c.targetPeerCount
  {
  }

  /** Whatever is at most what was kept, class by class, is kept in full. */
  lemma AllocationFits(max: Counts, n: Counts, m: Counts)
    requires forall cls: Class :: m.Get(cls) <= Allocate(max, n).keep.Get(cls)
    ensures Allocate(max, m).keep == m
  {
    var keep := Allocate(max, n).keep;
    assert m.Get(IntraValidators) <= keep.Get(IntraValidators) && m.Get(CrossValidators) <= keep.Get(CrossValidators);
    assert m.Get(IntraObservers) <= keep.Get(IntraObservers) && m.Get(CrossObservers) <= keep.Get(CrossObservers);
    assert m.Get(Seeders) <= keep.Get(Seeders) && m.Get(Unknown) <= keep.Get(Unknown);
  }

  /** Allocating again for what was kept changes nothing. */
  lemma AllocationIsStable(max: Counts, n: Counts)
    ensures Allocate(max, Allocate(max, n).keep) == Allocate(max, n)
  {
  }

  /** One link of the chain passes a missing slot on, or absorbs it. */
  lemma Link(e: nat, e': nat, m: nat, m': nat)
    requires (e' == e && m' <= m <= m' + 1) || (e' == e + 1 && m' == m)
    ensures var (u, r) := ComputeUsedAndSpare(e, m);
            var (u', r') := ComputeUsedAndSpare(e', m');
            r' <= r <= r' + 1 && u + r == m && u' + r' == m'
  {
  }

  /** One more peer takes at most one more slot. */
  lemma AllocationMonotone(max: Counts, n: Counts, cls: Class)
    ensures var a, b := Allocate(max, n), Allocate(max, n.Plus(cls));
            a.keep.Total() <= b.keep.Total() <= a.keep.Total() + 1
  {
    hide ComputeUsedAndSpare;
    var n' := n.Plus(cls);
    var r1, s1 := ComputeUsedAndSpare(n.intraValidators, max.intraValidators).1,
                  ComputeUsedAndSpare(n'.intraValidators, max.intraValidators).1;
    Link(n.intraValidators, n'.intraValidators, max.intraValidators, max.intraValidators);
    var m2, k2 := max.crossValidators + r1, max.crossValidators + s1;
    Link(n.crossValidators, n'.crossValidators, m2, k2);
    var m3, k3 := max.intraObservers + ComputeUsedAndSpare(n.crossValidators, m2).1,
                  max.intraObservers + ComputeUsedAndSpare(n'.crossValidators, k2).1;
    Link(n.intraObservers, n'.intraObservers, m3, k3);
    var m4, k4 := max.crossObservers + ComputeUsedAndSpare(n.intraObservers, m3).1,
                  max.crossObservers + ComputeUsedAndSpare(n'.intraObservers, k3).1;
    Link(n.crossObservers, n'.crossObservers, m4, k4);
    var m5, k5 := max.unknown + ComputeUsedAndSpare(n.crossObservers, m4).1,
                  max.unknown + ComputeUsedAndSpare(n'.crossObservers, k4).1;
    Link(n.unknown, n'.unknown, m5, k5);
    Link(n.seeders, n'.seeders, max.seeders, max.seeders);
  }

  /** `cls` comes at or before `of` in the chain; seeders are on a chain of their own. */
  predicate Upstream(cls: Class, of: Class) {
    match of
    case IntraValidators => cls == IntraValidators
    case CrossValidators => cls == IntraValidators || cls == CrossValidators
    case IntraObservers => cls == IntraValidators || cls == CrossValidators || cls == IntraObservers
    case CrossObservers => cls != Seeders && cls != Unknown
    case Seeders => cls == Seeders
    case Unknown => cls != Seeders
  }

  lemma AllocationIsCausal(max: Counts, n: Counts, m: Counts, cls: Class)
    requires forall c: Class | Upstream(c, cls) :: n.Get(c) == m.Get(c)
    ensures Allocate(max, n).keep.Get(cls) == Allocate(max, m).keep.Get(cls)
  {
    assert Upstream(cls, cls);
    assert cls != Seeders ==> Upstream(IntraValidators, cls);
    assert cls.IntraObservers? || cls.CrossObservers? || cls.Unknown? ==> Upstream(CrossValidators, cls);
    assert cls.CrossObservers? || cls.Unknown? ==> Upstream(IntraObservers, cls);
    assert cls.Unknown? ==> Upstream(CrossObservers, cls);
  }

  // ---------------------------------------------------------------- classes

  datatype PeerType = UnknownPeer | ValidatorPeer | ObserverPeer | OtherPeer
  datatype PeerInfo = PeerInfo(peerType: PeerType, shardID: nat)

  /** Seeders, the peer resolver and the preferred peers are read through functions. */
  datatype Sharder = Sharder(
    selfPeerId: PeerID,
    limits: Counts,
    computeDistance: (PeerID, PeerID) -> nat,
    isSeeder: PeerID -> bool,
    getPeerInfo: PeerID -> PeerInfo,
    preferred: PeerID -> bool)
  {
    function WithDistance(p: PeerID): PeerDistance {
      PeerDistance(p, computeDistance(p, selfPeerId))
    }

    /** The class of a peer; preferred peers that are not seeders are in none. */
    function ClassOf(p: PeerID): Option<Class> {
      if isSeeder(p) then Some(Seeders) else
      var info := getPeerInfo(p);
      if preferred(p) then None
      else if info.peerType.UnknownPeer? then Some(Unknown)
      else
        var isCrossShard := info.shardID != getPeerInfo(selfPeerId).shardID;
        match info.peerType
        case ValidatorPeer => Some(if isCrossShard then CrossValidators else IntraValidators)
        case ObserverPeer => Some(if isCrossShard then CrossObservers else IntraObservers)
        case _ => None
    }
  }

  /** The peers of one class, in order, with their distances. */
  function Members(sh: Sharder, peers: seq<PeerID>, cls: Class): seq<PeerDistance> {
    if peers == [] then [] else
    var n := |peers| - 1;
    Members(sh, peers[..n], cls)
    + (if sh.ClassOf(peers[n]) == Some(cls) then [sh.WithDistance(peers[n])] else [])
  }

  function CountsOf(sh: Sharder, peers: seq<PeerID>): Counts {
    Counts(|Members(sh, peers, IntraValidators)|, |Members(sh, peers, CrossValidators)|,
           |Members(sh, peers, IntraObservers)|, |Members(sh, peers, CrossObservers)|,
           |Members(sh, peers, Seeders)|, |Members(sh, peers, Unknown)|)
  }

  function Keep(sh: Sharder, peers: seq<PeerID>, cls: Class): nat {
    Allocate(sh.limits, CountsOf(sh, peers)).keep.Get(cls)
  }

  // ---------------------------------------------------------------- the eviction list

  type Parts = map<Class, seq<PeerID>>

  /** One outcome of ComputeEvictionList, class by class. */
  ghost predicate Outcome(sh: Sharder, peers: seq<PeerID>, parts: Parts) {
    forall cls: Class :: cls in parts && Evicts(Members(sh, peers, cls), Keep(sh, peers, cls), parts[cls])
  }

  ghost predicate Complete(parts: Parts) {
    forall cls: Class :: cls in parts
  }

  ghost function Flatten(parts: Parts): seq<PeerID>
    requires Complete(parts)
  {
    parts[IntraValidators] + parts[CrossValidators] + parts[IntraObservers]
    + parts[CrossObservers] + parts[Seeders] + parts[Unknown]
  }

  /** `evicted` is some outcome, class after class. */
  ghost predicate IsEvictionList(sh: Sharder, peers: seq<PeerID>, evicted: seq<PeerID>) {
    exists parts: Parts :: Outcome(sh, peers, parts) && Complete(parts) && evicted == Flatten(parts)
  }

  predicate HoldsPeer(list: seq<PeerDistance>, p: PeerID) {
    exists i | 0 <= i < |list| :: list[i].id == p
  }

  /** Which of the six lists a listed peer is in, from what the node knows of it. Preferred peers
      that are not seeders, and peers of any other type, are in none. */
  ghost predicate InItsList(sh: Sharder, p: PeerID, lists: map<Class, seq<PeerDistance>>)
    requires forall cls: Class :: cls in lists
  {
    var ordinary := !sh.isSeeder(p) && !sh.preferred(p);
    var info, own := sh.getPeerInfo(p), sh.getPeerInfo(sh.selfPeerId).shardID;
    && (HoldsPeer(lists[Seeders], p) <==> sh.isSeeder(p))
    && (HoldsPeer(lists[Unknown], p) <==> ordinary && info.peerType == UnknownPeer)
    && (HoldsPeer(lists[IntraValidators], p) <==> ordinary && info.peerType == ValidatorPeer && info.shardID == own)
    && (HoldsPeer(lists[CrossValidators], p) <==> ordinary && info.peerType == ValidatorPeer && info.shardID != own)
    && (HoldsPeer(lists[IntraObservers], p) <==> ordinary && info.peerType == ObserverPeer && info.shardID == own)
    && (HoldsPeer(lists[CrossObservers], p) <==> ordinary && info.peerType == ObserverPeer && info.shardID != own)
    && ((forall cls: Class :: !HoldsPeer(lists[cls], p)) <==>
          !sh.isSeeder(p) && (sh.preferred(p) || info.peerType == OtherPeer))
  }

  lemma {:induction false} MemberExactly(sh: Sharder, peers: seq<PeerID>, cls: Class, p: PeerID)
    ensures HoldsPeer(Members(sh, peers, cls), p) <==> p in peers && sh.ClassOf(p) == Some(cls)
  {
    if peers != [] {
      var n := |peers| - 1;
      MemberExactly(sh, peers[..n], cls, p);
      HoldsAppend(Members(sh, peers[..n], cls), sh.WithDistance(peers[n]), p);
      assert p in peers <==> p in peers[..n] || p == peers[n];
      assert Members(sh, peers[..n], cls) + [] == Members(sh, peers[..n], cls);
    }
  }

  lemma HoldsAppend(list: seq<PeerDistance>, x: PeerDistance, p: PeerID)
    ensures HoldsPeer(list + [x], p) <==> HoldsPeer(list, p) || x.id == p
  {
    var all := list + [x];
    assert all[|list|] == x;
    if i :| 0 <= i < |list| && list[i].id == p {
      assert all[i].id == p;
    }
  }

  lemma {:induction false} MemberDistances(sh: Sharder, peers: seq<PeerID>, cls: Class)
    ensures forall x | x in Members(sh, peers, cls) :: x.distance == sh.computeDistance(x.id, sh.selfPeerId)
  {
    if peers != [] {
      MemberDistances(sh, peers[..|peers| - 1], cls);
    }
  }

  method SplitPeerIds(sh: Sharder, peers: seq<PeerID>) returns (lists: map<Class, seq<PeerDistance>>)
    ensures forall cls: Class :: cls in lists && lists[cls] == Members(sh, peers, cls)
    ensures forall p | p in peers :: InItsList(sh, p, lists)
    ensures forall cls: Class, x | x in lists[cls] :: x.distance == sh.computeDistance(x.id, sh.selfPeerId)
  {
    lists := map[IntraValidators := [], IntraObservers := [], CrossValidators := [],
                 CrossObservers := [], Seeders := [], Unknown := []];
    forall cls: Class
      ensures cls in lists && lists[cls] == Members(sh, peers[..0], cls)
    {
      match cls
      case IntraValidators =>
      case CrossValidators =>
      case IntraObservers =>
      case CrossObservers =>
      case Seeders =>
      case Unknown =>
    }
    for i := 0 to |peers|
      invariant forall cls: Class :: cls in lists && lists[cls] == Members(sh, peers[..i], cls)
    {
      assert peers[..i + 1][..i] == peers[..i];
      var p := peers[i];
      var pd := sh.WithDistance(p);
      var cls := sh.ClassOf(p);
      if cls.Some? {
        lists := lists[cls.value := lists[cls.value] + [pd]];
      }
    }
    assert peers[..|peers|] == peers;
    forall p | p in peers
      ensures InItsList(sh, p, lists)
    {
      forall cls: Class {
        MemberExactly(sh, peers, cls, p);
      }
    }
    forall cls: Class, x | x in lists[cls]
      ensures x.distance == sh.computeDistance(x.id, sh.selfPeerId)
    {
      MemberDistances(sh, peers, cls);
    }
  }

  lemma SixParts(sh: Sharder, peers: seq<PeerID>, parts: Parts)
    requires parts.Keys == {IntraValidators, CrossValidators, IntraObservers, CrossObservers, Seeders, Unknown}
    requires forall cls | cls in parts :: Evicts(Members(sh, peers, cls), Keep(sh, peers, cls), parts[cls])
    ensures Outcome(sh, peers, parts) && Complete(parts)
  {
    hide Members, Evicts, Keep;
    forall cls: Class
      ensures cls in parts
    {
      match cls
      case IntraValidators =>
      case CrossValidators =>
      case IntraObservers =>
      case CrossObservers =>
      case Seeders =>
      case Unknown =>
    }
  }

  lemma Joined(sh: Sharder, peers: seq<PeerID>, e1: seq<PeerID>, e2: seq<PeerID>, e3: seq<PeerID>,
               e4: seq<PeerID>, e5: seq<PeerID>, e6: seq<PeerID>)
    requires Evicts(Members(sh, peers, IntraValidators), Keep(sh, peers, IntraValidators), e1)
    requires Evicts(Members(sh, peers, CrossValidators), Keep(sh, peers, CrossValidators), e2)
    requires Evicts(Members(sh, peers, IntraObservers), Keep(sh, peers, IntraObservers), e3)
    requires Evicts(Members(sh, peers, CrossObservers), Keep(sh, peers, CrossObservers), e4)
    requires Evicts(Members(sh, peers, Seeders), Keep(sh, peers, Seeders), e5)
    requires Evicts(Members(sh, peers, Unknown), Keep(sh, peers, Unknown), e6)
    ensures IsEvictionList(sh, peers, e1 + e2 + e3 + e4 + e5 + e6)
  {
    hide Members, Evicts, Keep, Outcome;
    var parts: Parts := map[IntraValidators := e1, CrossValidators := e2, IntraObservers := e3,
                            CrossObservers := e4, Seeders := e5, Unknown := e6];
    SixParts(sh, peers, parts);
  }

  method ComputeEvictionList(sh: Sharder, peers: seq<PeerID>) returns (evicted: seq<PeerID>)
    ensures IsEvictionList(sh, peers, evicted)
  {
    hide Members, Evicts, Allocate, IsEvictionList;
    var lists := SplitPeerIds(sh, peers);
    var n := Counts(|lists[IntraValidators]|, |lists[CrossValidators]|, |lists[IntraObservers]|,
                    |lists[CrossObservers]|, |lists[Seeders]|, |lists[Unknown]|);
    assert n == CountsOf(sh, peers);
    var num := Allocate(sh.limits, n).keep;
    var e1 := Evict(lists[IntraValidators], num.intraValidators);
    var e2 := Evict(lists[CrossValidators], num.crossValidators);
    var e3 := Evict(lists[IntraObservers], num.intraObservers);
    var e4 := Evict(lists[CrossObservers], num.crossObservers);
    var e5 := Evict(lists[Seeders], num.seeders);
    var e6 := Evict(lists[Unknown], num.unknown);
    evicted := e1 + e2 + e3 + e4 + e5 + e6;
    Joined(sh, peers, e1, e2, e3, e4, e5, e6);
  }
}
