/** The one-list sharder: all peers in one list with a single bound. */
module OneListSharder {
  import opened Common
  import opened Eviction

  datatype Sharder = Sharder(selfPeerId: PeerID, maxPeerCount: nat, computeDistance: (PeerID, PeerID) -> nat)
  {
    function WithDistance(p: PeerID): PeerDistance {
      PeerDistance(p, computeDistance(p, selfPeerId))
    }
  }

  function Converted(sh: Sharder, peers: seq<PeerID>): (r: seq<PeerDistance>)
    ensures |r| == |peers|
  {
    Map(sh.WithDistance, peers)
  }

  method ConvertList(sh: Sharder, peers: seq<PeerID>) returns (list: seq<PeerDistance>)
    ensures list == Converted(sh, peers)
    ensures |list| == |peers|
    ensures forall i | 0 <= i < |peers| ::
              list[i].id == peers[i] && list[i].distance == sh.computeDistance(peers[i], sh.selfPeerId)
  {
    list := [];
    for i := 0 to |peers|
      invariant |list| == i
      invariant forall k | 0 <= k < i :: list[k] == sh.WithDistance(peers[k])
    {
      list := list + [sh.WithDistance(peers[i])];
    }
  }

  ghost predicate Outcome(sh: Sharder, peers: seq<PeerID>, evicted: seq<PeerID>) {
    Evicts(Converted(sh, peers), sh.maxPeerCount, evicted)
  }

  method ComputeEvictionList(sh: Sharder, peers: seq<PeerID>) returns (evicted: seq<PeerID>)
    ensures Outcome(sh, peers, evicted)
  {
    var list := ConvertList(sh, peers);
    evicted := Evict(list, sh.maxPeerCount);
  }

  /** Exactly the excess over the bound is evicted. */
  lemma ExcessIsEvicted(sh: Sharder, peers: seq<PeerID>, evicted: seq<PeerID>)
    requires Outcome(sh, peers, evicted)
    ensures |evicted| == if |peers| > sh.maxPeerCount then |peers| - sh.maxPeerCount else 0
  {
    hide Evicts;
    EvictionSize(Converted(sh, peers), sh.maxPeerCount, evicted);
  }

  /** Kept and evicted peers are a permutation of the list and the nearest are kept. */
  lemma NearestAreKept(sh: Sharder, peers: seq<PeerID>, evicted: seq<PeerID>)
    returns (kept: seq<PeerDistance>, gone: seq<PeerDistance>)
    requires Outcome(sh, peers, evicted)
    ensures multiset(Converted(sh, peers)) == multiset(kept) + multiset(gone) && evicted == Ids(gone)
    ensures multiset(peers) == multiset(Ids(kept)) + multiset(evicted)
    ensures forall i, j | 0 <= i < |kept| && 0 <= j < |gone| ::
              sh.computeDistance(kept[i].id, sh.selfPeerId) <= sh.computeDistance(gone[j].id, sh.selfPeerId)
  {
    hide Evicts;
    kept, gone := FarthestFirst(Converted(sh, peers), sh.maxPeerCount, evicted);
    assert multiset(kept + gone) == multiset(Converted(sh, peers));
    MapPermutes(IdOf, kept + gone, Converted(sh, peers));
    IdsConcat(kept, gone);
    IdsOfConverted(sh, peers);
    ConvertedDistances(sh, peers, kept + gone);
  }

  lemma ConvertedDistances(sh: Sharder, peers: seq<PeerID>, xs: seq<PeerDistance>)
    requires multiset(xs) == multiset(Converted(sh, peers))
    ensures forall x | x in xs :: x.distance == sh.computeDistance(x.id, sh.selfPeerId)
  {
    forall x | x in xs
      ensures x.distance == sh.computeDistance(x.id, sh.selfPeerId)
    {
      assert x in multiset(Converted(sh, peers));
    }
  }

  lemma IdsOfConverted(sh: Sharder, peers: seq<PeerID>)
    ensures Ids(Converted(sh, peers)) == peers
  {
  }

  lemma IdsConcat(a: seq<PeerDistance>, b: seq<PeerDistance>)
    ensures Ids(a + b) == Ids(a) + Ids(b)
  {
  }

  /** The evicted distances are the same for every order of the input. */
  lemma OrderDoesNotMatter(sh: Sharder, peers: seq<PeerID>, evicted: seq<PeerID>,
                           others: seq<PeerID>, otherEvicted: seq<PeerID>)
    requires multiset(peers) == multiset(others)
    requires Outcome(sh, peers, evicted) && Outcome(sh, others, otherEvicted)
    ensures DistancesOf(Converted(sh, evicted)) == DistancesOf(Converted(sh, otherEvicted))
  {
    var xs, ys, k := Converted(sh, peers), Converted(sh, others), sh.maxPeerCount;
    MapPermutes(sh.WithDistance, peers, others);
    SameLength(xs, ys);
    if k < |xs| {
      var sx: seq<PeerDistance> :| EvictedBy(xs, k, sx, evicted);
      var sy: seq<PeerDistance> :| EvictedBy(ys, k, sy, otherEvicted);
      OrderIndependent(xs, ys, k, sx, evicted, sy, otherEvicted);
      TailConverted(sh, peers, sx, k);
      TailConverted(sh, others, sy, k);
    }
  }

  lemma TailConverted(sh: Sharder, peers: seq<PeerID>, sorted: seq<PeerDistance>, k: nat)
    requires multiset(Converted(sh, peers)) == multiset(sorted) && k <= |sorted|
    ensures Converted(sh, Ids(sorted[k..])) == sorted[k..]
  {
    forall i | k <= i < |sorted|
      ensures sorted[i] == sh.WithDistance(sorted[i].id)
    {
      assert sorted[i] in multiset(Converted(sh, peers));
    }
  }
}
