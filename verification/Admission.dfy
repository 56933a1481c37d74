/** The admission check of the connection manager, and its agreement with eviction. */
module Admission {
  import Bits
  import Distances
  import opened Common
  import opened Eviction
  import opened ListsSharder
  import opened SharderLaws

  /** `has`. */
  method Has(pid: PeerID, list: seq<PeerID>) returns (found: bool)
    ensures found <==> pid in list
  {
    for i := 0 to |list|
      invariant forall k | 0 <= k < i :: list[k] != pid
    {
      if list[i] == pid {
        return true;
      }
    }
    return false;
  }

  function WithPeer(peers: seq<PeerID>, pid: PeerID): seq<PeerID> {
    if pid in peers then peers else peers + [pid]
  }

  /** The answer that the eviction of the peers together with the candidate gives. */
  ghost predicate Answers(sh: Sharder, peers: seq<PeerID>, pid: PeerID, ok: bool) {
    exists evicted :: IsEvictionList(sh, peers, evicted) && (ok <==> pid !in evicted)
  }

  /** `canConnectToPeer` over the lists sharder. */
  method CanConnectToPeer(sh: Sharder, connected: seq<PeerID>, pid: PeerID) returns (ok: bool)
    ensures Answers(sh, WithPeer(connected, pid), pid, ok)
  {
    hide IsEvictionList;
    var allPeers := connected;
    var known := Has(pid, allPeers);
    if !known {
      allPeers := allPeers + [pid];
    }
    var evicted := ComputeEvictionList(sh, allPeers);
    var unwanted := Has(pid, evicted);
    ok := !unwanted;
  }

  /** No other peer of the class is exactly as far as p. */
  ghost predicate Untied(sh: Sharder, peers: seq<PeerID>, p: PeerID) {
    forall q | q in peers && q != p && sh.ClassOf(q) == sh.ClassOf(p) ::
      sh.WithDistance(q).distance != sh.WithDistance(p).distance
  }

  /** No evicted peer of the class of p is exactly as far as p. */
  ghost predicate NoEvictedTie(sh: Sharder, parts: Parts, p: PeerID) {
    sh.ClassOf(p).Some? && sh.ClassOf(p).value in parts ==>
      forall q | q in parts[sh.ClassOf(p).value] :: sh.WithDistance(q).distance != sh.WithDistance(p).distance
  }

  /** The sorted class behind an outcome that evicts somebody. */
  lemma SortedClass(sh: Sharder, peers: seq<PeerID>, parts: Parts, cls: Class) returns (sorted: seq<PeerDistance>)
    requires Outcome(sh, peers, parts) && Keep(sh, peers, cls) < |Members(sh, peers, cls)|
    ensures EvictedBy(Members(sh, peers, cls), Keep(sh, peers, cls), sorted, parts[cls])
    ensures Clamp(Keep(sh, peers, cls), |Members(sh, peers, cls)|) == Keep(sh, peers, cls)
    ensures |sorted| == |Members(sh, peers, cls)|
    ensures forall x | x in sorted :: x == sh.WithDistance(x.id)
  {
    hide Members, Keep;
    var xs := Members(sh, peers, cls);
    sorted :| EvictedBy(xs, Keep(sh, peers, cls), sorted, parts[cls]);
    MembersAreTagged(sh, peers, cls);
    forall x | x in sorted
      ensures x == sh.WithDistance(x.id)
    {
      assert x in multiset(xs);
    }
  }

  /** An accepted peer is safe from every eviction over the same peers, whatever their order,
      as soon as no evicted peer of its class ties it. */
  lemma SafeWithoutEvictedTie(sh: Sharder, peers: seq<PeerID>, pid: PeerID, parts: Parts,
                              later: seq<PeerID>, laterParts: Parts)
    requires pid in peers && Outcome(sh, peers, parts) && pid !in Flatten(parts)
    requires NoEvictedTie(sh, parts, pid)
    requires multiset(later) == multiset(peers) && Outcome(sh, later, laterParts)
    ensures pid !in Flatten(laterParts)
  {
    hide Members, Outcome, Flatten, Allocate, Evicts, EvictedBy;
    CompleteOutcome(sh, peers, parts);
    CompleteOutcome(sh, later, laterParts);
    EvictedWithinClass(sh, peers, parts, pid);
    EvictedWithinClass(sh, later, laterParts, pid);
    if sh.ClassOf(pid).Some? {
      var cls := sh.ClassOf(pid).value;
      var xs, ys, k := Members(sh, peers, cls), Members(sh, later, cls), Keep(sh, peers, cls);
      MembersPermute(sh, peers, later, cls);
      CountsPermute(sh, peers, later);
      SameLength(xs, ys);
      KeepWithin(sh, peers, cls);
      OutcomeAt(sh, later, laterParts, cls);
      if k < |xs| {
        var sorted := SortedClass(sh, peers, parts, cls);
        EvictedAreFarther(sh, peers, pid, parts, sorted);
        MembersAreTagged(sh, later, cls);
        StrictlyNearerStays(xs, k, sorted, parts[cls], ys, laterParts[cls], sh.WithDistance(pid));
      } else {
        EvictionSize(ys, k, laterParts[cls]);
      }
    }
  }

  lemma OutcomeAt(sh: Sharder, peers: seq<PeerID>, parts: Parts, cls: Class)
    requires Outcome(sh, peers, parts)
    ensures cls in parts && Evicts(Members(sh, peers, cls), Keep(sh, peers, cls), parts[cls])
  {
    hide Members, Keep, Evicts;
  }

  /** Where a kept peer stands in the sorted class. */
  lemma KeptIndex(sh: Sharder, peers: seq<PeerID>, pid: PeerID, parts: Parts, sorted: seq<PeerDistance>) returns (i: nat)
    requires pid in peers && sh.ClassOf(pid).Some?
    requires var cls := sh.ClassOf(pid).value;
             var k := Keep(sh, peers, cls);
             && cls in parts && pid !in parts[cls] && k < |Members(sh, peers, cls)|
             && EvictedBy(Members(sh, peers, cls), k, sorted, parts[cls])
    ensures i < Keep(sh, peers, sh.ClassOf(pid).value) && i < |sorted| && sorted[i] == sh.WithDistance(pid)
  {
    hide Members, Keep;
    var cls := sh.ClassOf(pid).value;
    MemberCount(sh, peers, cls, pid);
    assert pid in multiset(peers);
    var x := sh.WithDistance(pid);
    assert x in multiset(sorted);
    i :| 0 <= i < |sorted| && sorted[i] == x;
    TailHolds(sorted, Keep(sh, peers, cls), i);
  }


  lemma EvictedAreFarther(sh: Sharder, peers: seq<PeerID>, pid: PeerID, parts: Parts, sorted: seq<PeerDistance>)
    requires pid in peers && sh.ClassOf(pid).Some? && NoEvictedTie(sh, parts, pid)
    requires var cls := sh.ClassOf(pid).value;
             var k := Keep(sh, peers, cls);
             && cls in parts && pid !in parts[cls] && k < |Members(sh, peers, cls)|
             && EvictedBy(Members(sh, peers, cls), k, sorted, parts[cls])
    requires forall x | x in sorted :: x == sh.WithDistance(x.id)
    ensures forall j | Keep(sh, peers, sh.ClassOf(pid).value) <= j < |sorted| ::
              sorted[j].distance > sh.WithDistance(pid).distance
  {
    hide Members, Keep;
    var cls := sh.ClassOf(pid).value;
    var k := Keep(sh, peers, cls);
    var i := KeptIndex(sh, peers, pid, parts, sorted);
    forall j | k <= j < |sorted|
      ensures sorted[j].distance > sh.WithDistance(pid).distance
    {
      assert parts[cls][j - k] == sorted[j].id;
    }
  }

  /** An evicted tie is enough: the same list then has another outcome that evicts the accepted
      peer. */
  lemma EvictedTieIsUnsafe(sh: Sharder, peers: seq<PeerID>, pid: PeerID, parts: Parts) returns (other: Parts)
    requires pid in peers && Outcome(sh, peers, parts) && pid !in Flatten(parts)
    requires !NoEvictedTie(sh, parts, pid)
    ensures Outcome(sh, peers, other) && pid in Flatten(other)
  {
    hide Members, Flatten, Evicts, EvictedBy, Keep;
    CompleteOutcome(sh, peers, parts);
    EvictedWithinClass(sh, peers, parts, pid);
    var cls := sh.ClassOf(pid).value;
    var xs, k := Members(sh, peers, cls), Keep(sh, peers, cls);
    KeepWithin(sh, peers, cls);
    EvictionSize(xs, k, parts[cls]);
    var sorted := SortedClass(sh, peers, parts, cls);
    var i := KeptIndex(sh, peers, pid, parts, sorted);
    var j := TiedIndex(sh, peers, pid, parts, sorted);
    var e := TieGoesEitherWay(xs, k, sorted, parts[cls], i, j);
    other := parts[cls := e];
    assert forall c: Class :: c in other && Evicts(Members(sh, peers, c), Keep(sh, peers, c), other[c]);
    CompleteOutcome(sh, peers, other);
    EvictedWithinClass(sh, peers, other, pid);
  }

  lemma TiedIndex(sh: Sharder, peers: seq<PeerID>, pid: PeerID, parts: Parts, sorted: seq<PeerDistance>) returns (j: nat)
    requires sh.ClassOf(pid).Some? && !NoEvictedTie(sh, parts, pid)
    requires var cls := sh.ClassOf(pid).value;
             var k := Keep(sh, peers, cls);
             && cls in parts && k < |Members(sh, peers, cls)|
             && EvictedBy(Members(sh, peers, cls), k, sorted, parts[cls])
    requires forall x | x in sorted :: x == sh.WithDistance(x.id)
    ensures Keep(sh, peers, sh.ClassOf(pid).value) <= j < |sorted|
    ensures sorted[j].distance == sh.WithDistance(pid).distance
  {
    hide Members, Keep;
    var cls := sh.ClassOf(pid).value;
    var q :| q in parts[cls] && sh.WithDistance(q).distance == sh.WithDistance(pid).distance;
    j := IndexInTail(sorted, Keep(sh, peers, cls), q);
    assert sorted[j] in sorted;
  }

  // ---------------------------------------------------------------- the exact condition

  /** Some way of sorting ties evicts the peer: more peers of its class than are kept are at most
      as far as it is. */
  ghost predicate CanBeEvicted(sh: Sharder, peers: seq<PeerID>, pid: PeerID) {
    sh.ClassOf(pid).Some?
    && var cls := sh.ClassOf(pid).value;
       CountNearer(Members(sh, peers, cls), sh.WithDistance(pid).distance + 1) > Keep(sh, peers, cls)
  }

  /** Some way of sorting ties keeps the peer: it fits together with the nearer ones. */
  ghost predicate CanBeKept(sh: Sharder, peers: seq<PeerID>, pid: PeerID) {
    sh.ClassOf(pid).Some? ==>
      var cls := sh.ClassOf(pid).value;
      CountNearer(Members(sh, peers, cls), sh.WithDistance(pid).distance) + multiset(peers)[pid] <= Keep(sh, peers, cls)
  }

  lemma SomeOutcome(sh: Sharder, peers: seq<PeerID>) returns (parts: Parts)
    ensures Outcome(sh, peers, parts) && Complete(parts)
  {
    hide Members, Evicts, Keep, Outcome;
    var e1 := SomeEviction(Members(sh, peers, IntraValidators), Keep(sh, peers, IntraValidators));
    var e2 := SomeEviction(Members(sh, peers, CrossValidators), Keep(sh, peers, CrossValidators));
    var e3 := SomeEviction(Members(sh, peers, IntraObservers), Keep(sh, peers, IntraObservers));
    var e4 := SomeEviction(Members(sh, peers, CrossObservers), Keep(sh, peers, CrossObservers));
    var e5 := SomeEviction(Members(sh, peers, Seeders), Keep(sh, peers, Seeders));
    var e6 := SomeEviction(Members(sh, peers, Unknown), Keep(sh, peers, Unknown));
    parts := map[IntraValidators := e1, CrossValidators := e2, IntraObservers := e3,
                 CrossObservers := e4, Seeders := e5, Unknown := e6];
    SixParts(sh, peers, parts);
  }

  /** Any eviction of the class of a peer is part of some outcome. */
  lemma OutcomeWith(sh: Sharder, peers: seq<PeerID>, cls: Class, e: seq<PeerID>) returns (parts: Parts)
    requires Evicts(Members(sh, peers, cls), Keep(sh, peers, cls), e)
    ensures Outcome(sh, peers, parts) && Complete(parts) && parts[cls] == e
  {
    hide Members, Evicts, Keep;
    parts := SomeOutcome(sh, peers);
    parts := parts[cls := e];
  }

  lemma ClassFacts(sh: Sharder, peers: seq<PeerID>, pid: PeerID)
    requires pid in peers && sh.ClassOf(pid).Some?
    ensures var xs, x := Members(sh, peers, sh.ClassOf(pid).value), sh.WithDistance(pid);
            && x in xs && Consistent(xs, x) && multiset(xs)[x] == multiset(peers)[pid]
            && Keep(sh, peers, sh.ClassOf(pid).value) <= |xs|
  {
    hide Members, Keep;
    var cls := sh.ClassOf(pid).value;
    MemberCount(sh, peers, cls, pid);
    MembersAreTagged(sh, peers, cls);
    KeepWithin(sh, peers, cls);
    assert pid in multiset(peers);
    assert sh.WithDistance(pid) in multiset(Members(sh, peers, cls));
  }

  /** The verdicts that an eviction over the peers can give are decided by the peers, their
      classes and the limits alone. */
  lemma VerdictsExactly(sh: Sharder, peers: seq<PeerID>, pid: PeerID)
    requires pid in peers
    ensures Answers(sh, peers, pid, false) <==> CanBeEvicted(sh, peers, pid)
    ensures Answers(sh, peers, pid, true) <==> CanBeKept(sh, peers, pid)
  {
    hide Members, Keep, Outcome, Flatten, Evicts, IsEvictionList, CountNearer;
    if sh.ClassOf(pid).None? {
      NeverEvicted(sh, peers, pid);
    } else {
      var cls := sh.ClassOf(pid).value;
      var xs, x, k := Members(sh, peers, cls), sh.WithDistance(pid), Keep(sh, peers, cls);
      ClassFacts(sh, peers, pid);
      SomeSortEvicts(xs, k, x);
      SomeSortKeeps(xs, k, x);
      AnswersWithinClass(sh, peers, pid, false);
      AnswersWithinClass(sh, peers, pid, true);
    }
  }

  lemma NeverEvicted(sh: Sharder, peers: seq<PeerID>, pid: PeerID)
    requires sh.ClassOf(pid).None?
    ensures Answers(sh, peers, pid, true) && !Answers(sh, peers, pid, false)
  {
    hide Members, Keep, Outcome, Flatten, IsEvictionList;
    var parts := SomeOutcome(sh, peers);
    ListOf(sh, peers, parts);
    forall evicted | IsEvictionList(sh, peers, evicted)
      ensures pid !in evicted
    {
      var parts := PartsOf(sh, peers, evicted);
      EvictedWithinClass(sh, peers, parts, pid);
    }
  }

  lemma ListOf(sh: Sharder, peers: seq<PeerID>, parts: Parts)
    requires Outcome(sh, peers, parts) && Complete(parts)
    ensures IsEvictionList(sh, peers, Flatten(parts))
  {
    hide Outcome, Flatten;
  }

  lemma AnswersWithinClass(sh: Sharder, peers: seq<PeerID>, pid: PeerID, ok: bool)
    requires sh.ClassOf(pid).Some?
    ensures var cls := sh.ClassOf(pid).value;
            Answers(sh, peers, pid, ok) <==>
            exists e :: Evicts(Members(sh, peers, cls), Keep(sh, peers, cls), e) && (ok <==> pid !in e)
  {
    hide Members, Keep, Outcome, Flatten, Evicts, IsEvictionList;
    var cls := sh.ClassOf(pid).value;
    if e :| Evicts(Members(sh, peers, cls), Keep(sh, peers, cls), e) && (ok <==> pid !in e) {
      var parts := OutcomeWith(sh, peers, cls, e);
      EvictedWithinClass(sh, peers, parts, pid);
      ListOf(sh, peers, parts);
    }
    forall evicted | IsEvictionList(sh, peers, evicted) && (ok <==> pid !in evicted)
      ensures exists e :: Evicts(Members(sh, peers, cls), Keep(sh, peers, cls), e) && (ok <==> pid !in e)
    {
      var parts := PartsOf(sh, peers, evicted);
      EvictedWithinClass(sh, peers, parts, pid);
      OutcomeAt(sh, peers, parts, cls);
      assert ok <==> pid !in parts[cls];
    }
  }

  lemma ConditionsPermute(sh: Sharder, peers: seq<PeerID>, later: seq<PeerID>, pid: PeerID)
    requires multiset(peers) == multiset(later)
    ensures CanBeEvicted(sh, peers, pid) <==> CanBeEvicted(sh, later, pid)
    ensures CanBeKept(sh, peers, pid) <==> CanBeKept(sh, later, pid)
  {
    hide Members, Allocate, CountNearer;
    if sh.ClassOf(pid).Some? {
      var cls := sh.ClassOf(pid).value;
      var xs, ys, d := Members(sh, peers, cls), Members(sh, later, cls), sh.WithDistance(pid).distance;
      MembersPermute(sh, peers, later, cls);
      CountsPermute(sh, peers, later);
      CountNearerMultiset(xs, ys, d);
      CountNearerMultiset(xs, ys, d + 1);
    }
  }

  /** The check accepts the candidate, and an eviction over the same peers evicts it. */
  ghost predicate Disagreement(sh: Sharder, peers: seq<PeerID>, pid: PeerID, later: seq<PeerID>, evicted: seq<PeerID>) {
    && Answers(sh, peers, pid, true)
    && multiset(later) == multiset(peers) && IsEvictionList(sh, later, evicted) && pid in evicted
  }

  /** Admission and eviction can disagree about a candidate exactly when its distance straddles the
      number kept of its class: it fits with the nearer ones, and not with all it ties. */
  lemma DisagreementExactly(sh: Sharder, connected: seq<PeerID>, pid: PeerID)
    ensures var all := WithPeer(connected, pid);
            (exists later, evicted :: Disagreement(sh, all, pid, later, evicted))
            <==> CanBeKept(sh, all, pid) && CanBeEvicted(sh, all, pid)
  {
    hide CanBeKept, CanBeEvicted, IsEvictionList;
    var all := WithPeer(connected, pid);
    assert pid in all by { assert pid !in connected ==> all[|connected|] == pid; }
    VerdictsExactly(sh, all, pid);
    if CanBeKept(sh, all, pid) && CanBeEvicted(sh, all, pid) {
      var evicted :| IsEvictionList(sh, all, evicted) && pid in evicted;
      assert Disagreement(sh, all, pid, all, evicted);
    }
    forall later, evicted | Disagreement(sh, all, pid, later, evicted)
      ensures CanBeKept(sh, all, pid) && CanBeEvicted(sh, all, pid)
    {
      assert pid in multiset(later);
      ConditionsPermute(sh, all, later, pid);
      VerdictsExactly(sh, later, pid);
      assert Answers(sh, later, pid, false);
    }
  }

  // ---------------------------------------------------------------- a disagreement

  function ExampleKey(p: PeerID): Distances.Key {
    if p == "a" then [1] else if p == "b" then [2] else [0]
  }

  /** One slot for each class and one for a seeder; every peer is a seeder. */
  const EXAMPLE_CONFIG := Config(6, 1, 1, 1, 1, 1)

  function ExampleSharder(): Sharder {
    Sharder("self", Counts(1, 1, 1, 1, 1, 1),
            (p: PeerID, q: PeerID) => Distances.DifferingBits(ExampleKey(p), ExampleKey(q)),
            (p: PeerID) => true, (p: PeerID) => PeerInfo(UnknownPeer, 0), (p: PeerID) => false)
  }

  lemma ExampleDistances()
    ensures ExampleSharder().WithDistance("a") == PeerDistance("a", 1)
    ensures ExampleSharder().WithDistance("b") == PeerDistance("b", 1)
  {
    assert "a"[0] != "b"[0] && |"self"| == 4;
    assert Bits.Xor(1, 0) == 1 && Bits.Xor(2, 0) == 2;
    assert Bits.Ones(1) == 1 && Bits.Ones(2) == 1;
    assert [1][1..] == [] && [2][1..] == [] && [0][1..] == [];
  }

  lemma AllSeeders()
    ensures forall p: PeerID :: ExampleSharder().ClassOf(p) == Some(Seeders)
    ensures ExampleSharder().limits == Counts(1, 1, 1, 1, 1, 1)
  {
  }

  lemma ExampleMembers(p: PeerID, q: PeerID, cls: Class)
    requires p == "a" || p == "b"
    requires q == "a" || q == "b"
    ensures Members(ExampleSharder(), [p, q], cls)
         == if cls == Seeders then [PeerDistance(p, 1), PeerDistance(q, 1)] else []
  {
    var sh := ExampleSharder();
    hide ExampleSharder;
    ExampleDistances();
    AllSeeders();
    assert [p, q][..1] == [p] && [p][..0] == [];
    assert Members(sh, [p], cls) == if cls == Seeders then [PeerDistance(p, 1)] else [];
  }

  /** With ties left in input order, the second of the two is evicted. */
  lemma SecondIsEvicted(p: PeerID, q: PeerID)
    requires p == "a" || p == "b"
    requires q == "a" || q == "b"
    ensures IsEvictionList(ExampleSharder(), [p, q], [q])
  {
    hide ExampleSharder, Members, Evicts, Flatten;
    var sh, none: seq<PeerID> := ExampleSharder(), [];
    AllSeeders();
    forall cls: Class
      ensures cls != Seeders ==> Evicts(Members(sh, [p, q], cls), Keep(sh, [p, q], cls), none)
      ensures cls == Seeders ==> Evicts(Members(sh, [p, q], cls), Keep(sh, [p, q], cls), [q])
    {
      ExampleMembers(p, q, cls);
      ExampleMembers(p, q, Seeders);
      TieEvicts(PeerDistance(p, 1), PeerDistance(q, 1));
      NobodyEvicted(Keep(sh, [p, q], cls));
    }
    Joined(sh, [p, q], none, none, none, none, [q], none);
    assert none + none + none + none + [q] + none == [q];
  }

  lemma TieEvicts(x: PeerDistance, y: PeerDistance)
    requires x.distance == y.distance
    ensures Evicts([x, y], 1, [y.id])
  {
    assert [x, y][1..] == [y] && Ids([y]) == [y.id];
    assert EvictedBy([x, y], 1, [x, y], [y.id]);
  }

  lemma NobodyEvicted(k: nat)
    ensures Evicts([], k, [])
  {
  }

  /** Two seeders, as far from the node as each other, and one slot. Both are connected, and the
      check is asked about "b" again: with the connections listed as "b", "a" it accepts, and with
      the same connections listed as "a", "b" the sharder evicts "b". Ties stay in input order in
      both runs. */
  lemma DisagreementHappens()
    ensures NewLimits(EXAMPLE_CONFIG) == Some(ExampleSharder().limits)
    ensures IsEvictionList(ExampleSharder(), ["b", "a"], ["a"])
    ensures IsEvictionList(ExampleSharder(), ["a", "b"], ["b"])
    ensures Disagreement(ExampleSharder(), WithPeer(["b", "a"], "b"), "b", ["a", "b"], ["b"])
  {
    hide ExampleSharder, IsEvictionList;
    AllSeeders();
    SecondIsEvicted("b", "a");
    SecondIsEvicted("a", "b");
    assert "a"[0] != "b"[0];
    assert ["b", "a"][0] == "b";
    assert WithPeer(["b", "a"], "b") == ["b", "a"];
  }

  // ---------------------------------------------------------------- new candidates

  /** A sort that keeps ties in order keeps the peer. */
  ghost predicate KeptInOrder(sh: Sharder, peers: seq<PeerID>, pid: PeerID, sorted: seq<PeerDistance>) {
    sh.ClassOf(pid).Some? ==>
      var cls := sh.ClassOf(pid).value;
      var xs := Members(sh, peers, cls);
      && IsSortOf(xs, sorted) && KeepsTies(xs, sorted)
      && pid !in Ids(sorted[Clamp(Keep(sh, peers, cls), |sorted|)..])
  }

  /** A candidate that was not connected is listed last. If a sort that keeps ties in order lets it
      in, no order of the peers and no sort evicts it: a new candidate can be accepted and then
      evicted only where the sort reorders ties. */
  lemma NewCandidateIsSafe(sh: Sharder, connected: seq<PeerID>, pid: PeerID, sorted: seq<PeerDistance>,
                           later: seq<PeerID>, evicted: seq<PeerID>)
    requires pid !in connected && multiset(later) == multiset(connected + [pid])
    ensures KeptInOrder(sh, connected + [pid], pid, sorted) && IsEvictionList(sh, later, evicted) ==> pid !in evicted
  {
    hide Members, Keep, CountNearer, IsEvictionList, Ids, KeepsTies;
    var all := connected + [pid];
    assert all[|connected|] == pid;
    assert pid in multiset(later);
    if KeptInOrder(sh, all, pid, sorted) && IsEvictionList(sh, later, evicted) {
      if sh.ClassOf(pid).Some? {
        var cls := sh.ClassOf(pid).value;
        var xs := Members(sh, all, cls);
        LastMember(sh, connected, pid);
        KeepWithin(sh, all, cls);
        SameLength(xs, sorted);
        LastIsSafe(xs, Keep(sh, all, cls), sorted, sh.WithDistance(pid));
      }
      ConditionsPermute(sh, all, later, pid);
      VerdictsExactly(sh, later, pid);
    }
  }

  lemma LastMember(sh: Sharder, connected: seq<PeerID>, pid: PeerID)
    requires sh.ClassOf(pid).Some?
    ensures var xs := Members(sh, connected + [pid], sh.ClassOf(pid).value);
            xs != [] && xs[|xs| - 1] == sh.WithDistance(pid)
  {
    assert (connected + [pid])[..|connected|] == connected;
  }

  // ---------------------------------------------------------------- untied peers

  /** Whether an untied peer is evicted is decided by its rank in its class. */
  lemma RankInClass(sh: Sharder, peers: seq<PeerID>, parts: Parts, p: PeerID)
    requires p in peers && Outcome(sh, peers, parts) && Untied(sh, peers, p) && sh.ClassOf(p).Some?
    ensures var cls := sh.ClassOf(p).value;
            p in Flatten(parts) <==>
            CountNearer(Members(sh, peers, cls), sh.WithDistance(p).distance) + multiset(peers)[p] > Keep(sh, peers, cls)
  {
    hide Members, Keep, Outcome, Flatten, Evicts, CountNearer;
    CompleteOutcome(sh, peers, parts);
    EvictedWithinClass(sh, peers, parts, p);
    var cls := sh.ClassOf(p).value;
    var xs, x, k := Members(sh, peers, cls), sh.WithDistance(p), Keep(sh, peers, cls);
    ClassFacts(sh, peers, p);
    MembersAreTagged(sh, peers, cls);
    OutcomeAt(sh, peers, parts, cls);
    RankDecides(xs, k, parts[cls], x);
  }

  /** If the check accepts a peer that no other peer of its class ties, no eviction over the same
      peers, in any order, evicts it. */
  lemma AdmittedIsNotEvicted(sh: Sharder, connected: seq<PeerID>, pid: PeerID, later: seq<PeerID>, evicted: seq<PeerID>)
    requires multiset(later) == multiset(WithPeer(connected, pid))
    ensures var all := WithPeer(connected, pid);
            Answers(sh, all, pid, true) && Untied(sh, all, pid) && IsEvictionList(sh, later, evicted) ==>
              pid !in evicted
  {
    hide Members, Outcome, Flatten, Allocate, IsEvictionList;
    var all := WithPeer(connected, pid);
    if !Answers(sh, all, pid, true) || !Untied(sh, all, pid) || !IsEvictionList(sh, later, evicted) {
      return;
    }
    assert pid in all by { assert pid !in connected ==> all[|connected|] == pid; }
    var before :| IsEvictionList(sh, all, before) && pid !in before;
    var parts := PartsOf(sh, all, before);
    var laterParts := PartsOf(sh, later, evicted);
    EvictedWithinClass(sh, all, parts, pid);
    if sh.ClassOf(pid).Some? {
      var cls := sh.ClassOf(pid).value;
      forall q | q in parts[cls]
        ensures sh.WithDistance(q).distance != sh.WithDistance(pid).distance
      {
        PartCount(sh, all, parts, cls, q);
        assert q in multiset(parts[cls]);
        assert q in multiset(all);
      }
    }
    SafeWithoutEvictedTie(sh, all, pid, parts, later, laterParts);
  }
}
