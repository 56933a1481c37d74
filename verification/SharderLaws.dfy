/** Laws of the lists sharder, for every peer list and every way the sort orders ties. */
module SharderLaws {
  import opened Common
  import opened Eviction
  import opened ListsSharder

  // ---------------------------------------------------------------- the members of a class

  lemma {:induction false} MembersAreTagged(sh: Sharder, peers: seq<PeerID>, cls: Class)
    ensures forall x | x in Members(sh, peers, cls) ::
              x == sh.WithDistance(x.id) && sh.ClassOf(x.id) == Some(cls) && x.id in peers
  {
    if peers != [] {
      MembersAreTagged(sh, peers[..|peers| - 1], cls);
    }
  }

  /** A peer is counted in its own class as often as it is listed, and in no other. */
  lemma {:induction false} MemberCount(sh: Sharder, peers: seq<PeerID>, cls: Class, p: PeerID)
    ensures multiset(Members(sh, peers, cls))[sh.WithDistance(p)]
         == if sh.ClassOf(p) == Some(cls) then multiset(peers)[p] else 0
  {
    if peers != [] {
      var n := |peers| - 1;
      MemberCount(sh, peers[..n], cls, p);
      CountLast(peers, p);
    }
  }

  lemma {:induction false} IdCount(xs: seq<PeerDistance>, x: PeerDistance)
    requires forall y | y in xs && y.id == x.id :: y == x
    ensures multiset(Ids(xs))[x.id] == multiset(xs)[x]
  {
    hide Ids;
    if xs != [] {
      var n := |xs| - 1;
      assert forall y | y in xs[..n] :: y in xs;
      IdCount(xs[..n], x);
      IdsDropLast(xs);
      CountLast(xs, x);
      CountLast(Ids(xs), x.id);
      assert xs[n] in xs;
    }
  }

  lemma IdsDropLast(xs: seq<PeerDistance>)
    requires xs != []
    ensures Ids(xs)[..|xs| - 1] == Ids(xs[..|xs| - 1]) && Ids(xs)[|xs| - 1] == xs[|xs| - 1].id
  {
  }

  /** The same peers in another order give the same classes. */
  lemma MembersPermute(sh: Sharder, peers: seq<PeerID>, others: seq<PeerID>, cls: Class)
    requires multiset(peers) == multiset(others)
    ensures multiset(Members(sh, peers, cls)) == multiset(Members(sh, others, cls))
  {
    var a, b := Members(sh, peers, cls), Members(sh, others, cls);
    MembersAreTagged(sh, peers, cls);
    MembersAreTagged(sh, others, cls);
    forall x: PeerDistance
      ensures multiset(a)[x] == multiset(b)[x]
    {
      MemberCount(sh, peers, cls, x.id);
      MemberCount(sh, others, cls, x.id);
      if x != sh.WithDistance(x.id) {
        assert x !in a && x !in b;
      }
    }
  }

  lemma CountsPermute(sh: Sharder, peers: seq<PeerID>, others: seq<PeerID>)
    requires multiset(peers) == multiset(others)
    ensures CountsOf(sh, peers) == CountsOf(sh, others)
  {
    hide Members;
    forall cls: Class
      ensures |Members(sh, peers, cls)| == |Members(sh, others, cls)|
    {
      MembersPermute(sh, peers, others, cls);
      SameLength(Members(sh, peers, cls), Members(sh, others, cls));
    }
  }

  lemma KeepWithin(sh: Sharder, peers: seq<PeerID>, cls: Class)
    ensures Keep(sh, peers, cls) <= |Members(sh, peers, cls)| == CountsOf(sh, peers).Get(cls)
  {
    hide Members;
  }

  // ---------------------------------------------------------------- one class of an outcome

  /** Kept and evicted peers of a class: a permutation of the class, nearest kept. */
  lemma ClassSplit(sh: Sharder, peers: seq<PeerID>, parts: Parts, cls: Class)
    returns (kept: seq<PeerDistance>, gone: seq<PeerDistance>)
    requires Outcome(sh, peers, parts)
    ensures multiset(Members(sh, peers, cls)) == multiset(kept) + multiset(gone)
    ensures |kept| == Keep(sh, peers, cls) && parts[cls] == Ids(gone)
    ensures forall i, j | 0 <= i < |kept| && 0 <= j < |gone| :: kept[i].distance <= gone[j].distance
    ensures forall x | x in kept + gone :: x.distance == sh.computeDistance(x.id, sh.selfPeerId)
  {
    hide Members, Keep, Evicts;
    KeepWithin(sh, peers, cls);
    kept, gone := FarthestFirst(Members(sh, peers, cls), Keep(sh, peers, cls), parts[cls]);
    MemberDistances(sh, peers, cls);
    forall x | x in kept + gone
      ensures x.distance == sh.computeDistance(x.id, sh.selfPeerId)
    {
      assert x in multiset(Members(sh, peers, cls));
    }
  }

  /** How often a peer is evicted from a class. */
  lemma PartCount(sh: Sharder, peers: seq<PeerID>, parts: Parts, cls: Class, p: PeerID)
    requires Outcome(sh, peers, parts)
    ensures multiset(parts[cls])[p] <= if sh.ClassOf(p) == Some(cls) then multiset(peers)[p] else 0
  {
    hide Members, Keep, Evicts;
    var kept, gone := ClassSplit(sh, peers, parts, cls);
    MembersAreTagged(sh, peers, cls);
    MemberCount(sh, peers, cls, p);
    var x := sh.WithDistance(p);
    forall y | y in gone && y.id == x.id
      ensures y == x
    {
      assert y in multiset(Members(sh, peers, cls));
    }
    IdCount(gone, x);
  }

  lemma FlattenCount(parts: Parts, p: PeerID)
    requires Complete(parts)
    ensures multiset(Flatten(parts))[p]
         == multiset(parts[IntraValidators])[p] + multiset(parts[CrossValidators])[p]
          + multiset(parts[IntraObservers])[p] + multiset(parts[CrossObservers])[p]
          + multiset(parts[Seeders])[p] + multiset(parts[Unknown])[p]
  {
  }

  /** The eviction list takes peers from the input, each at most as often as it is listed. */
  lemma EvictedAreListed(sh: Sharder, peers: seq<PeerID>, parts: Parts)
    requires Outcome(sh, peers, parts)
    ensures multiset(Flatten(parts)) <= multiset(peers)
  {
    hide Outcome, Flatten;
    CompleteOutcome(sh, peers, parts);
    forall p: PeerID
      ensures multiset(Flatten(parts))[p] <= multiset(peers)[p]
    {
      FlattenCount(parts, p);
      forall cls: Class {
        PartCount(sh, peers, parts, cls, p);
      }
    }
  }

  lemma CompleteOutcome(sh: Sharder, peers: seq<PeerID>, parts: Parts)
    requires Outcome(sh, peers, parts)
    ensures Complete(parts)
  {
  }

  /** A peer without a class, such as a preferred peer that is not a seeder, is never evicted;
      any other is evicted only within its class. */
  lemma EvictedWithinClass(sh: Sharder, peers: seq<PeerID>, parts: Parts, p: PeerID)
    requires Outcome(sh, peers, parts)
    ensures p in Flatten(parts) <==> sh.ClassOf(p).Some? && p in parts[sh.ClassOf(p).value]
    ensures sh.preferred(p) && !sh.isSeeder(p) ==> p !in Flatten(parts)
  {
    hide Outcome, Flatten;
    CompleteOutcome(sh, peers, parts);
    FlattenCount(parts, p);
    forall cls: Class {
      PartCount(sh, peers, parts, cls, p);
    }
    assert p in Flatten(parts) <==> p in multiset(Flatten(parts));
    if sh.ClassOf(p).Some? {
      assert p in parts[sh.ClassOf(p).value] <==> p in multiset(parts[sh.ClassOf(p).value]);
    }
  }

  // ---------------------------------------------------------------- slots

  lemma PartSizes(sh: Sharder, peers: seq<PeerID>, parts: Parts)
    requires Outcome(sh, peers, parts)
    ensures forall cls: Class :: |parts[cls]| == CountsOf(sh, peers).Get(cls) - Keep(sh, peers, cls)
    ensures |Flatten(parts)|
         == CountsOf(sh, peers).Total() - Allocate(sh.limits, CountsOf(sh, peers)).keep.Total()
  {
    hide Members, Evicts, Allocate;
    forall cls: Class
      ensures |parts[cls]| == CountsOf(sh, peers).Get(cls) - Keep(sh, peers, cls)
    {
      KeepWithin(sh, peers, cls);
      EvictionSize(Members(sh, peers, cls), Keep(sh, peers, cls), parts[cls]);
    }
    assert Keep(sh, peers, IntraValidators) == Allocate(sh.limits, CountsOf(sh, peers)).keep.intraValidators;
    assert Keep(sh, peers, CrossValidators) == Allocate(sh.limits, CountsOf(sh, peers)).keep.crossValidators;
    assert Keep(sh, peers, IntraObservers) == Allocate(sh.limits, CountsOf(sh, peers)).keep.intraObservers;
    assert Keep(sh, peers, CrossObservers) == Allocate(sh.limits, CountsOf(sh, peers)).keep.crossObservers;
    assert Keep(sh, peers, Seeders) == Allocate(sh.limits, CountsOf(sh, peers)).keep.seeders;
    assert Keep(sh, peers, Unknown) == Allocate(sh.limits, CountsOf(sh, peers)).keep.unknown;
  }

  /** Slot conservation: for every accepted configuration and every list, what is kept fits the
      peer limit, seeders fit theirs, and the slots of the chain are either used or spare. */
  lemma SlotConservation(c: Config, sh: Sharder, peers: seq<PeerID>, parts: Parts)
    requires ProcessNumConnections(c).Some? && sh.limits == ProcessNumConnections(c).value
    requires Outcome(sh, peers, parts)
    ensures var n := CountsOf(sh, peers);
            var a := Allocate(sh.limits, n);
            && (forall cls: Class :: n.Get(cls) - |parts[cls]| == a.keep.Get(cls))
            && n.Total() - |Flatten(parts)| <= c.targetPeerCount
            && n.seeders - |parts[Seeders]| <= c.maxSeeders
            && (n.NonSeeders() - (|Flatten(parts)| - |parts[Seeders]|)) + a.spare == sh.limits.NonSeeders()
  {
    hide Members, Outcome, Allocate, Flatten, ProcessNumConnections;
    CompleteOutcome(sh, peers, parts);
    PartSizes(sh, peers, parts);
    AllocationConserves(c, CountsOf(sh, peers));
    SameNames(sh, peers);
  }

  lemma SameNames(sh: Sharder, peers: seq<PeerID>)
    ensures forall cls: Class :: Keep(sh, peers, cls) == Allocate(sh.limits, CountsOf(sh, peers)).keep.Get(cls)
  {
    hide Members, Allocate;
  }

  /** How many peers a class loses depends only on the classes upstream of it. */
  lemma EvictionIsCausal(sh: Sharder, peers: seq<PeerID>, parts: Parts, others: seq<PeerID>, otherParts: Parts, cls: Class)
    requires Outcome(sh, peers, parts) && Outcome(sh, others, otherParts)
    requires forall c: Class | Upstream(c, cls) :: |Members(sh, peers, c)| == |Members(sh, others, c)|
    ensures |parts[cls]| == |otherParts[cls]|
  {
    hide Members, Outcome, Allocate, Flatten;
    CompleteOutcome(sh, peers, parts);
    CompleteOutcome(sh, others, otherParts);
    PartSizes(sh, peers, parts);
    PartSizes(sh, others, otherParts);
    assert Upstream(cls, cls);
    AllocationIsCausal(sh.limits, CountsOf(sh, peers), CountsOf(sh, others), cls);
  }

  lemma AddedCount(sh: Sharder, peers: seq<PeerID>, p: PeerID, more: seq<PeerID>)
    requires multiset(more) == multiset(peers) + multiset{p}
    ensures CountsOf(sh, more)
         == if sh.ClassOf(p).Some? then CountsOf(sh, peers).Plus(sh.ClassOf(p).value) else CountsOf(sh, peers)
  {
    CountsPermute(sh, more, peers + [p]);
    assert (peers + [p])[..|peers|] == peers;
    if sh.ClassOf(p).Some? {
      match sh.ClassOf(p).value
      case IntraValidators =>
      case CrossValidators =>
      case IntraObservers =>
      case CrossObservers =>
      case Seeders =>
      case Unknown =>
    }
  }

  /** The outcome behind an eviction list. */
  lemma PartsOf(sh: Sharder, peers: seq<PeerID>, evicted: seq<PeerID>) returns (parts: Parts)
    requires IsEvictionList(sh, peers, evicted)
    ensures Outcome(sh, peers, parts) && Complete(parts) && evicted == Flatten(parts)
  {
    hide Outcome, Complete, Flatten;
    parts :| Outcome(sh, peers, parts) && Complete(parts) && evicted == Flatten(parts);
  }

  /** One more peer, put anywhere in the list, means at most one more eviction, and never fewer. */
  lemma OneMorePeer(sh: Sharder, peers: seq<PeerID>, evicted: seq<PeerID>, p: PeerID,
                    more: seq<PeerID>, moreEvicted: seq<PeerID>)
    requires multiset(more) == multiset(peers) + multiset{p}
    ensures IsEvictionList(sh, peers, evicted) && IsEvictionList(sh, more, moreEvicted) ==>
              |evicted| <= |moreEvicted| <= |evicted| + 1
  {
    hide Members, Outcome, Allocate, Flatten, IsEvictionList;
    if !IsEvictionList(sh, peers, evicted) || !IsEvictionList(sh, more, moreEvicted) {
      return;
    }
    var parts := PartsOf(sh, peers, evicted);
    var moreParts := PartsOf(sh, more, moreEvicted);
    PartSizes(sh, peers, parts);
    PartSizes(sh, more, moreParts);
    AddedCount(sh, peers, p, more);
    if sh.ClassOf(p).Some? {
      var n, cls := CountsOf(sh, peers), sh.ClassOf(p).value;
      AllocationMonotone(sh.limits, n, cls);
      assert n.Plus(cls).Total() == n.Total() + 1;
    }
  }

  // ---------------------------------------------------------------- order

  function PeerDistances(sh: Sharder, peers: seq<PeerID>): seq<nat> {
    DistancesOf(Map(sh.WithDistance, peers))
  }

  lemma SamePart(sh: Sharder, gone: seq<PeerDistance>, ids: seq<PeerID>)
    requires ids == Ids(gone) && forall i | 0 <= i < |gone| :: gone[i] == sh.WithDistance(gone[i].id)
    ensures PeerDistances(sh, ids) == DistancesOf(gone)
  {
  }

  /** The distances evicted from a class are the same for every order of the input. */
  lemma OrderDoesNotMatter(sh: Sharder, peers: seq<PeerID>, parts: Parts, others: seq<PeerID>, otherParts: Parts, cls: Class)
    requires multiset(peers) == multiset(others)
    requires Outcome(sh, peers, parts) && Outcome(sh, others, otherParts)
    ensures PeerDistances(sh, parts[cls]) == PeerDistances(sh, otherParts[cls])
  {
    hide Members, Allocate;
    var xs, ys, k := Members(sh, peers, cls), Members(sh, others, cls), Keep(sh, peers, cls);
    MembersPermute(sh, peers, others, cls);
    CountsPermute(sh, peers, others);
    SameLength(xs, ys);
    KeepWithin(sh, peers, cls);
    if k < |xs| {
      var sx: seq<PeerDistance> :| EvictedBy(xs, k, sx, parts[cls]);
      var sy: seq<PeerDistance> :| EvictedBy(ys, k, sy, otherParts[cls]);
      OrderIndependent(xs, ys, k, sx, parts[cls], sy, otherParts[cls]);
      TaggedTail(sh, peers, cls, sx, k);
      TaggedTail(sh, others, cls, sy, k);
      SamePart(sh, sx[k..], parts[cls]);
      SamePart(sh, sy[k..], otherParts[cls]);
    }
  }

  lemma TaggedTail(sh: Sharder, peers: seq<PeerID>, cls: Class, sorted: seq<PeerDistance>, k: nat)
    requires multiset(Members(sh, peers, cls)) == multiset(sorted) && k <= |sorted|
    ensures forall i | 0 <= i < |sorted[k..]| :: sorted[k..][i] == sh.WithDistance(sorted[k..][i].id)
  {
    hide Members;
    MembersAreTagged(sh, peers, cls);
    forall i | 0 <= i < |sorted[k..]|
      ensures sorted[k..][i] == sh.WithDistance(sorted[k..][i].id)
    {
      assert sorted[k..][i] in multiset(Members(sh, peers, cls));
    }
  }

  // ---------------------------------------------------------------- the order of the list

  /** Where the class of a peer comes in the eviction list. */
  function Rank(sh: Sharder, p: PeerID): int {
    match sh.ClassOf(p)
    case None => -1
    case Some(IntraValidators) => 0
    case Some(CrossValidators) => 1
    case Some(IntraObservers) => 2
    case Some(CrossObservers) => 3
    case Some(Seeders) => 4
    case Some(Unknown) => 5
  }

  /** Class after class, and from near to far within a class. */
  ghost predicate InOrder(sh: Sharder, s: seq<PeerID>) {
    forall i, j | 0 <= i < j < |s| ::
      || Rank(sh, s[i]) < Rank(sh, s[j])
      || (Rank(sh, s[i]) == Rank(sh, s[j])
          && sh.computeDistance(s[i], sh.selfPeerId) <= sh.computeDistance(s[j], sh.selfPeerId))
  }

  ghost predicate AllOfRank(sh: Sharder, s: seq<PeerID>, low: int, high: int) {
    forall i | 0 <= i < |s| :: low <= Rank(sh, s[i]) <= high
  }

  lemma AppendInOrder(sh: Sharder, a: seq<PeerID>, b: seq<PeerID>, r: nat)
    requires InOrder(sh, a) && InOrder(sh, b) && AllOfRank(sh, a, 0, r - 1) && AllOfRank(sh, b, r, r)
    ensures InOrder(sh, a + b) && AllOfRank(sh, a + b, 0, r)
  {
  }

  lemma PartInOrder(sh: Sharder, peers: seq<PeerID>, parts: Parts, cls: Class, r: int)
    requires Outcome(sh, peers, parts) && forall p | sh.ClassOf(p) == Some(cls) :: Rank(sh, p) == r
    ensures InOrder(sh, parts[cls]) && AllOfRank(sh, parts[cls], r, r)
  {
    hide Members, Keep, Rank, InOrder, AllOfRank, Evicts, EvictedBy;
    var xs, k := Members(sh, peers, cls), Keep(sh, peers, cls);
    KeepWithin(sh, peers, cls);
    EvictionSize(xs, k, parts[cls]);
    if k < |xs| {
      var sorted := SortedPart(xs, k, parts[cls]);
      TailIsTagged(sh, peers, cls, sorted, k, parts[cls]);
      TaggedInOrder(sh, parts[cls], sorted, k, cls, r);
    } else {
      NoneInOrder(sh, r);
    }
  }

  lemma NoneInOrder(sh: Sharder, r: int)
    ensures InOrder(sh, []) && AllOfRank(sh, [], r, r)
  {
  }

  lemma SortedPart(xs: seq<PeerDistance>, k: nat, evicted: seq<PeerID>) returns (sorted: seq<PeerDistance>)
    requires k < |xs| && Evicts(xs, k, evicted)
    ensures IsSortOf(xs, sorted) && |sorted| == |xs| && evicted == Ids(sorted[k..])
  {
    hide Ids;
    sorted :| EvictedBy(xs, k, sorted, evicted);
  }

  lemma TailIsTagged(sh: Sharder, peers: seq<PeerID>, cls: Class, sorted: seq<PeerDistance>, k: nat, ids: seq<PeerID>)
    requires multiset(sorted) == multiset(Members(sh, peers, cls)) && k <= |sorted| && ids == Ids(sorted[k..])
    ensures |ids| == |sorted| - k
    ensures forall i | 0 <= i < |ids| :: sorted[k + i] == sh.WithDistance(ids[i]) && sh.ClassOf(ids[i]) == Some(cls)
  {
    hide Members;
    MembersAreTagged(sh, peers, cls);
    forall i | 0 <= i < |ids|
      ensures sorted[k + i] == sh.WithDistance(ids[i]) && sh.ClassOf(ids[i]) == Some(cls)
    {
      assert sorted[k..][i] == sorted[k + i];
      assert sorted[k + i] in multiset(Members(sh, peers, cls));
    }
  }

  lemma TaggedInOrder(sh: Sharder, ids: seq<PeerID>, sorted: seq<PeerDistance>, k: nat, cls: Class, r: int)
    requires Sorted(sorted) && |ids| + k == |sorted| && forall p | sh.ClassOf(p) == Some(cls) :: Rank(sh, p) == r
    requires forall i | 0 <= i < |ids| :: sorted[k + i] == sh.WithDistance(ids[i]) && sh.ClassOf(ids[i]) == Some(cls)
    ensures InOrder(sh, ids) && AllOfRank(sh, ids, r, r)
  {
    hide Rank;
    forall i, j | 0 <= i < j < |ids|
      ensures sh.computeDistance(ids[i], sh.selfPeerId) <= sh.computeDistance(ids[j], sh.selfPeerId)
    {
      assert sorted[k + i].distance <= sorted[k + j].distance;
    }
  }

  /** The eviction list goes class by class, and from near to far within each. */
  lemma ListIsInOrder(sh: Sharder, peers: seq<PeerID>, evicted: seq<PeerID>)
    requires IsEvictionList(sh, peers, evicted)
    ensures InOrder(sh, evicted)
  {
    hide Outcome, InOrder, AllOfRank, IsEvictionList;
    var parts := PartsOf(sh, peers, evicted);
    PartInOrder(sh, peers, parts, IntraValidators, 0);
    PartInOrder(sh, peers, parts, CrossValidators, 1);
    PartInOrder(sh, peers, parts, IntraObservers, 2);
    PartInOrder(sh, peers, parts, CrossObservers, 3);
    PartInOrder(sh, peers, parts, Seeders, 4);
    PartInOrder(sh, peers, parts, Unknown, 5);
    var s1 := parts[IntraValidators];
    var s2 := s1 + parts[CrossValidators];
    var s3 := s2 + parts[IntraObservers];
    var s4 := s3 + parts[CrossObservers];
    var s5 := s4 + parts[Seeders];
    AppendInOrder(sh, s1, parts[CrossValidators], 1);
    AppendInOrder(sh, s2, parts[IntraObservers], 2);
    AppendInOrder(sh, s3, parts[CrossObservers], 3);
    AppendInOrder(sh, s4, parts[Seeders], 4);
    AppendInOrder(sh, s5, parts[Unknown], 5);
  }

  // ---------------------------------------------------------------- survivors

  function Survivors(peers: seq<PeerID>, evicted: seq<PeerID>): seq<PeerID> {
    if peers == [] then [] else
    var n := |peers| - 1;
    Survivors(peers[..n], evicted) + (if peers[n] in evicted then [] else [peers[n]])
  }

  lemma {:induction false} SurvivorCount(peers: seq<PeerID>, evicted: seq<PeerID>, p: PeerID)
    ensures multiset(Survivors(peers, evicted))[p] == if p in evicted then 0 else multiset(peers)[p]
  {
    if peers != [] {
      SurvivorCount(peers[..|peers| - 1], evicted, p);
      DropLast(peers);
    }
  }

  /** A surviving peer of a class is kept as often as it is listed. */
  lemma SurvivorIsKept(sh: Sharder, peers: seq<PeerID>, parts: Parts, cls: Class,
                       kept: seq<PeerDistance>, gone: seq<PeerDistance>, p: PeerID)
    requires Outcome(sh, peers, parts) && sh.ClassOf(p) == Some(cls) && p !in parts[cls]
    requires multiset(Members(sh, peers, cls)) == multiset(kept) + multiset(gone) && parts[cls] == Ids(gone)
    ensures multiset(kept)[sh.WithDistance(p)] == multiset(peers)[p]
  {
    hide Members, Outcome, Ids;
    var x := sh.WithDistance(p);
    MemberCount(sh, peers, cls, p);
    assert gone[0..] == gone;
    if x in gone {
      var i :| 0 <= i < |gone| && gone[i] == x;
      TailHolds(gone, 0, i);
    }
    assert multiset(gone)[x] == 0;
  }

  /** At most as many survive in a class as were kept of it. */
  lemma SurvivingMembers(sh: Sharder, peers: seq<PeerID>, parts: Parts, cls: Class)
    requires Outcome(sh, peers, parts)
    ensures |Members(sh, Survivors(peers, Flatten(parts)), cls)| <= Keep(sh, peers, cls)
  {
    hide Members, Outcome, Flatten, Keep, Survivors;
    CompleteOutcome(sh, peers, parts);
    var left := Survivors(peers, Flatten(parts));
    var kept, gone := ClassSplit(sh, peers, parts, cls);
    var ms := Members(sh, left, cls);
    MembersAreTagged(sh, left, cls);
    forall x: PeerDistance
      ensures multiset(ms)[x] <= multiset(kept)[x]
    {
      MemberCount(sh, left, cls, x.id);
      SurvivorCount(peers, Flatten(parts), x.id);
      EvictedWithinClass(sh, peers, parts, x.id);
      if x in multiset(ms) && sh.ClassOf(x.id) == Some(cls) && x.id !in parts[cls] {
        SurvivorIsKept(sh, peers, parts, cls, kept, gone, x.id);
      }
    }
    assert multiset(kept) == multiset(ms) + (multiset(kept) - multiset(ms));
    assert |multiset(kept)| == |kept| && |multiset(ms)| == |ms|;
  }

  /** Running the sharder again on the survivors evicts nobody. */
  lemma SurvivorsStay(sh: Sharder, peers: seq<PeerID>, evicted: seq<PeerID>, evictedAgain: seq<PeerID>)
    requires IsEvictionList(sh, peers, evicted)
    requires IsEvictionList(sh, Survivors(peers, evicted), evictedAgain)
    ensures evictedAgain == []
  {
    hide Members, Outcome, Allocate, Flatten, Survivors, IsEvictionList;
    var parts := PartsOf(sh, peers, evicted);
    var left := Survivors(peers, evicted);
    var again := PartsOf(sh, left, evictedAgain);
    forall cls: Class
      ensures CountsOf(sh, left).Get(cls) <= Allocate(sh.limits, CountsOf(sh, peers)).keep.Get(cls)
    {
      SurvivingMembers(sh, peers, parts, cls);
      KeepWithin(sh, left, cls);
      SameNames(sh, peers);
    }
    AllocationFits(sh.limits, CountsOf(sh, peers), CountsOf(sh, left));
    PartSizes(sh, left, again);
  }
}
