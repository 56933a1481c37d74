/** Sorting peers by distance and evicting the farthest ones. */
module Eviction {

  import opened Common

  datatype PeerDistance = PeerDistance(id: PeerID, distance: nat)

  function IdOf(x: PeerDistance): PeerID {
    x.id
  }

  function DistanceOf(x: PeerDistance): nat {
    x.distance
  }

  function Ids(xs: seq<PeerDistance>): (r: seq<PeerID>)
    ensures |r| == |xs|
  {
    Map(IdOf, xs)
  }

  function DistancesOf(xs: seq<PeerDistance>): (r: seq<nat>)
    ensures |r| == |xs|
  {
    Map(DistanceOf, xs)
  }

  ghost predicate Sorted(xs: seq<PeerDistance>) {
    forall i, j | 0 <= i < j < |xs| :: xs[i].distance <= xs[j].distance
  }

  /** Some outcome of `sort.Sort`, which is free to order ties as it likes. */
  ghost predicate IsSortOf(xs: seq<PeerDistance>, ys: seq<PeerDistance>) {
    multiset(xs) == multiset(ys) && Sorted(ys)
  }

  function Clamp(numKeep: int, size: nat): nat {
    if numKeep < 0 then 0 else if numKeep > size then size else numKeep
  }

  /** `evicted` is what `evict` may return for this list: the tail of a sorted list. */
  ghost predicate EvictedBy(xs: seq<PeerDistance>, numKeep: int, sorted: seq<PeerDistance>, evicted: seq<PeerID>) {
    && IsSortOf(xs, sorted) && |sorted| == |xs|
    && evicted == Ids(sorted[Clamp(numKeep, |xs|)..])
  }

  ghost predicate Evicts(xs: seq<PeerDistance>, numKeep: int, evicted: seq<PeerID>) {
    if Clamp(numKeep, |xs|) == |xs| then evicted == []
    else exists sorted: seq<PeerDistance> :: EvictedBy(xs, numKeep, sorted, evicted)
  }

  // ---------------------------------------------------------------- laws

  /** Kept and evicted together are a permutation of the list, the kept ones are as many as
      allowed, and none of them is farther than an evicted one. */
  lemma FarthestFirst(xs: seq<PeerDistance>, numKeep: int, evicted: seq<PeerID>)
    returns (kept: seq<PeerDistance>, gone: seq<PeerDistance>)
    requires Evicts(xs, numKeep, evicted)
    ensures multiset(xs) == multiset(kept) + multiset(gone)
    ensures |kept| == Clamp(numKeep, |xs|) && |kept| + |gone| == |xs|
    ensures evicted == Ids(gone)
    ensures forall i, j | 0 <= i < |kept| && 0 <= j < |gone| :: kept[i].distance <= gone[j].distance
  {
    if Clamp(numKeep, |xs|) == |xs| {
      return xs, [];
    }
    var sorted: seq<PeerDistance> :| EvictedBy(xs, numKeep, sorted, evicted);
    var k := Clamp(numKeep, |xs|);
    kept, gone := sorted[..k], sorted[k..];
    assert sorted == kept + gone;
  }

  lemma EvictionSize(xs: seq<PeerDistance>, numKeep: int, evicted: seq<PeerID>)
    requires Evicts(xs, numKeep, evicted)
    ensures |evicted| == if numKeep <= 0 then |xs| else if numKeep >= |xs| then 0 else |xs| - numKeep
  {
    var kept, gone := FarthestFirst(xs, numKeep, evicted);
  }

  ghost predicate Ascending(a: seq<nat>) {
    forall i, j | 0 <= i < j < |a| :: a[i] <= a[j]
  }

  lemma SameLast(a: seq<nat>, b: seq<nat>)
    requires multiset(a) == multiset(b) && Ascending(a) && Ascending(b) && a != []
    ensures b != [] && a[|a| - 1] == b[|b| - 1]
  {
    var i := TakeOut(a, b);
    var j := TakeOut(b, a);
  }

  lemma AscendingPrefix(a: seq<nat>, n: nat)
    requires Ascending(a) && n <= |a|
    ensures Ascending(a[..n])
  {
  }

  /** A multiset has one ascending arrangement. */
  lemma {:induction false} AscendingUnique(a: seq<nat>, b: seq<nat>)
    requires multiset(a) == multiset(b) && Ascending(a) && Ascending(b)
    ensures a == b
  {
    hide Ascending;
    SameLength(a, b);
    if a != [] {
      var n := |a| - 1;
      SameLast(a, b);
      DropBoth(a, b);
      AscendingPrefix(a, n);
      AscendingPrefix(b, n);
      AscendingUnique(a[..n], b[..n]);
      assert a == a[..n] + [a[n]] == b[..n] + [b[n]] == b;
    }
  }

  /** Which distances are evicted does not depend on the order of the list or on ties. */
  lemma OrderIndependent(xs: seq<PeerDistance>, ys: seq<PeerDistance>, numKeep: int,
                         sx: seq<PeerDistance>, ex: seq<PeerID>, sy: seq<PeerDistance>, ey: seq<PeerID>)
    requires multiset(xs) == multiset(ys)
    requires EvictedBy(xs, numKeep, sx, ex) && EvictedBy(ys, numKeep, sy, ey)
    ensures |xs| == |ys|
    ensures DistancesOf(sx[Clamp(numKeep, |xs|)..]) == DistancesOf(sy[Clamp(numKeep, |xs|)..])
  {
    SameLength(xs, ys);
    var k := Clamp(numKeep, |xs|);
    var a, b := DistancesOf(sx), DistancesOf(sy);
    MapPermutes(DistanceOf, sx, sy);
    AscendingUnique(a, b);
    assert DistancesOf(sx[k..]) == a[k..] && DistancesOf(sy[k..]) == b[k..];
  }

  // ---------------------------------------------------------------- rank

  function CountNearer(xs: seq<PeerDistance>, d: nat): nat {
    if xs == [] then 0
    else CountNearer(xs[..|xs| - 1], d) + (if xs[|xs| - 1].distance < d then 1 else 0)
  }

  lemma {:induction false} CountNearerConcat(xs: seq<PeerDistance>, ys: seq<PeerDistance>, d: nat)
    ensures CountNearer(xs + ys, d) == CountNearer(xs, d) + CountNearer(ys, d)
  {
    if ys == [] {
      assert xs + ys == xs;
    } else {
      var n := |ys| - 1;
      assert (xs + ys)[..|xs + ys| - 1] == xs + ys[..n];
      CountNearerConcat(xs, ys[..n], d);
    }
  }

  lemma {:induction false} CountNearerMultiset(xs: seq<PeerDistance>, ys: seq<PeerDistance>, d: nat)
    requires multiset(xs) == multiset(ys)
    ensures CountNearer(xs, d) == CountNearer(ys, d)
  {
    SameLength(xs, ys);
    if xs != [] {
      var n := |xs| - 1;
      var k := TakeOut(xs, ys);
      var x, before, after := ys[k], ys[..k], ys[k + 1..];
      CountNearerMultiset(xs[..n], before + after, d);
      assert ys == before + ([x] + after);
      CountNearerConcat(before, [x] + after, d);
      CountNearerConcat([x], after, d);
      CountNearerConcat(before, after, d);
    }
  }

  // ---------------------------------------------------------------- ties

  lemma {:induction false} CountAtMost(s: seq<PeerDistance>, k: nat, d: nat)
    requires k <= |s| && forall i | k <= i < |s| :: s[i].distance >= d
    ensures CountNearer(s, d) <= k
  {
    if s != [] {
      var n := |s| - 1;
      CountAtMost(s[..n], if k == |s| then n else k, d);
    }
  }

  lemma {:induction false} CountAtLeast(s: seq<PeerDistance>, r: nat, d: nat)
    requires r <= |s| && forall i | 0 <= i < r :: s[i].distance < d
    ensures CountNearer(s, d) >= r
  {
    if s != [] {
      var n := |s| - 1;
      CountAtLeast(s[..n], if r == |s| then n else r, d);
    }
  }

  /** If everyone evicted is strictly farther than p, no order of the list and no way of sorting
      ties evicts p. */
  lemma StrictlyNearerStays(xs: seq<PeerDistance>, numKeep: int, sorted: seq<PeerDistance>, evicted: seq<PeerID>,
                            ys: seq<PeerDistance>, other: seq<PeerID>, p: PeerDistance)
    requires EvictedBy(xs, numKeep, sorted, evicted) && Clamp(numKeep, |xs|) < |xs|
    requires forall j | Clamp(numKeep, |xs|) <= j < |xs| :: sorted[j].distance > p.distance
    requires multiset(xs) == multiset(ys) && Evicts(ys, numKeep, other)
    requires forall y | y in ys && y.id == p.id :: y == p
    ensures p.id !in other
  {
    hide CountNearer, Ids;
    SameLength(xs, ys);
    var k := Clamp(numKeep, |xs|);
    var t: seq<PeerDistance> :| EvictedBy(ys, numKeep, t, other);
    CountAtMost(sorted, k, p.distance + 1);
    CountNearerMultiset(sorted, t, p.distance + 1);
    forall i | 0 <= i < |t| && t[i].id == p.id
      ensures t[i] == p
    {
      assert t[i] in multiset(ys);
    }
    EvictedIsBehind(t, k, p);
  }

  /** Whoever is in the tail of a sorted list has all kept peers at or before its distance. */
  lemma EvictedIsBehind(t: seq<PeerDistance>, k: nat, p: PeerDistance)
    requires Sorted(t) && k <= |t| && forall i | 0 <= i < |t| && t[i].id == p.id :: t[i] == p
    ensures p.id in Ids(t[k..]) ==> CountNearer(t, p.distance + 1) > k
  {
    hide CountNearer, Ids;
    if p.id in Ids(t[k..]) {
      var r := IndexInTail(t, k, p.id);
      assert t[r] == p;
      assert forall i | 0 <= i < r :: t[i].distance <= t[r].distance;
      CountAtLeast(t, r + 1, p.distance + 1);
    }
  }

  lemma IndexInTail(t: seq<PeerDistance>, k: nat, id: PeerID) returns (r: nat)
    requires k <= |t| && id in Ids(t[k..])
    ensures k <= r < |t| && t[r].id == id
  {
    var i :| 0 <= i < |t[k..]| && Ids(t[k..])[i] == id;
    r := k + i;
    assert t[k..][i] == t[r];
  }

  /** If an evicted peer is as far as a kept one, the sort could have evicted the kept one. */
  lemma TieGoesEitherWay(xs: seq<PeerDistance>, numKeep: int, sorted: seq<PeerDistance>, evicted: seq<PeerID>,
                         i: nat, j: nat) returns (other: seq<PeerID>)
    requires EvictedBy(xs, numKeep, sorted, evicted)
    requires i < Clamp(numKeep, |xs|) <= j < |xs| && sorted[i].distance == sorted[j].distance
    ensures Evicts(xs, numKeep, other) && sorted[i].id in other
  {
    var k := Clamp(numKeep, |xs|);
    var swapped := sorted[i := sorted[j]][j := sorted[i]];
    SwapPermutes(sorted, i, j);
    other := Ids(swapped[k..]);
    assert EvictedBy(xs, numKeep, swapped, other);
    assert other[j - k] == sorted[i].id;
  }

  lemma SwapPermutes(s: seq<PeerDistance>, i: nat, j: nat)
    requires i < j < |s|
    ensures multiset(s[i := s[j]][j := s[i]]) == multiset(s)
  {
    var u := s[i := s[j]];
    assert multiset(u) == multiset(s) - multiset{s[i]} + multiset{s[j]};
    assert multiset(u[j := s[i]]) == multiset(u) - multiset{u[j]} + multiset{s[i]};
  }

  // ---------------------------------------------------------------- what some sort does

  lemma {:induction false} InsertSorted(s: seq<PeerDistance>, x: PeerDistance) returns (r: seq<PeerDistance>)
    requires Sorted(s)
    ensures Sorted(r) && multiset(r) == multiset(s) + multiset{x}
  {
    var n := |s| - 1;
    if s == [] || s[n].distance <= x.distance {
      SortedAppend(s, x);
      return s + [x];
    }
    hide Sorted;
    SortedPrefix(s);
    var below := InsertSorted(s[..n], x);
    forall y | y in below
      ensures y.distance <= s[n].distance
    {
      assert y in multiset(s[..n]) + multiset{x};
    }
    DropLast(s);
    SortedAppend(below, s[n]);
    r := below + [s[n]];
  }

  lemma SortedPrefix(s: seq<PeerDistance>)
    requires Sorted(s) && s != []
    ensures Sorted(s[..|s| - 1])
    ensures forall y | y in s[..|s| - 1] :: y.distance <= s[|s| - 1].distance
  {
  }

  lemma SortedAppend(s: seq<PeerDistance>, x: PeerDistance)
    requires Sorted(s) && (s == [] || s[|s| - 1].distance <= x.distance)
    ensures Sorted(s + [x])
  {
  }

  /** Every list can be sorted. */
  lemma {:induction false} SomeSort(xs: seq<PeerDistance>) returns (sorted: seq<PeerDistance>)
    ensures IsSortOf(xs, sorted) && |sorted| == |xs|
  {
    sorted := [];
    if xs != [] {
      var n := |xs| - 1;
      var s := SomeSort(xs[..n]);
      sorted := InsertSorted(s, xs[n]);
      DropLast(xs);
    }
    SameLength(xs, sorted);
  }

  lemma SomeEviction(xs: seq<PeerDistance>, numKeep: int) returns (evicted: seq<PeerID>)
    ensures Evicts(xs, numKeep, evicted)
  {
    var sorted := SomeSort(xs);
    evicted := Ids(sorted[Clamp(numKeep, |xs|)..]);
    assert EvictedBy(xs, numKeep, sorted, evicted);
  }

  /** Every occurrence of p is in this list with the distance of p. */
  ghost predicate Consistent(xs: seq<PeerDistance>, p: PeerDistance) {
    forall x | x in xs && x.id == p.id :: x == p
  }

  /** Some sort evicts p if and only if more peers than are kept are at most as far as p. */
  lemma SomeSortEvicts(xs: seq<PeerDistance>, k: nat, p: PeerDistance)
    requires p in xs && k <= |xs| && Consistent(xs, p)
    ensures (exists evicted :: Evicts(xs, k, evicted) && p.id in evicted) <==> CountNearer(xs, p.distance + 1) > k
  {
    hide CountNearer, Ids;
    if CountNearer(xs, p.distance + 1) > k {
      CountBound(xs, p.distance + 1);
      var evicted := EvictIfTied(xs, k, p);
    }
    forall evicted | Evicts(xs, k, evicted) && p.id in evicted
      ensures CountNearer(xs, p.distance + 1) > k
    {
      var t: seq<PeerDistance> :| EvictedBy(xs, k, t, evicted);
      SortedConsistent(xs, t, p);
      EvictedIsBehind(t, k, p);
      CountNearerMultiset(xs, t, p.distance + 1);
    }
  }

  lemma {:induction false} CountBound(xs: seq<PeerDistance>, d: nat)
    ensures CountNearer(xs, d) <= |xs|
  {
    if xs != [] {
      CountBound(xs[..|xs| - 1], d);
    }
  }

  lemma SortedConsistent(xs: seq<PeerDistance>, t: seq<PeerDistance>, p: PeerDistance)
    requires multiset(xs) == multiset(t) && Consistent(xs, p)
    ensures Consistent(t, p) && forall i | 0 <= i < |t| && t[i].id == p.id :: t[i] == p
  {
    forall x | x in t && x.id == p.id
      ensures x == p
    {
      assert x in multiset(xs);
    }
  }

  lemma EvictIfTied(xs: seq<PeerDistance>, k: nat, p: PeerDistance) returns (evicted: seq<PeerID>)
    requires p in xs && k < |xs| && CountNearer(xs, p.distance + 1) > k
    ensures Evicts(xs, k, evicted) && p.id in evicted
  {
    hide CountNearer, Ids;
    var sorted := SomeSort(xs);
    assert p in multiset(sorted);
    var i :| 0 <= i < |sorted| && sorted[i] == p;
    evicted := Ids(sorted[k..]);
    assert EvictedBy(xs, k, sorted, evicted);
    if i >= k {
      TailHolds(sorted, k, i);
    } else {
      CountNearerMultiset(xs, sorted, p.distance + 1);
      if forall j | k <= j < |sorted| :: sorted[j].distance >= p.distance + 1 {
        CountAtMost(sorted, k, p.distance + 1);
      }
      var j :| k <= j < |sorted| && sorted[j].distance <= p.distance;
      evicted := TieGoesEitherWay(xs, k, sorted, evicted, i, j);
    }
  }

  lemma TailHolds(sorted: seq<PeerDistance>, k: nat, i: nat)
    requires k <= |sorted| && i < |sorted|
    ensures i >= k ==> sorted[i].id in Ids(sorted[k..])
  {
    if i >= k {
      assert Ids(sorted[k..])[i - k] == sorted[i].id;
    }
  }

  /** Distances doubled, so that p can be put before everyone it ties with. */
  function Favour(p: PeerID): PeerDistance -> PeerDistance {
    (x: PeerDistance) => PeerDistance(x.id, 2 * x.distance + if x.id == p then 0 else 1)
  }

  function Restore(x: PeerDistance): PeerDistance {
    PeerDistance(x.id, x.distance / 2)
  }

  lemma {:induction false} CountFavoured(xs: seq<PeerDistance>, p: PeerDistance)
    requires Consistent(xs, p)
    ensures CountNearer(Map(Favour(p.id), xs), 2 * p.distance + 1) == CountNearer(xs, p.distance) + multiset(xs)[p]
  {
    if xs != [] {
      var n := |xs| - 1;
      var ys := Map(Favour(p.id), xs);
      assert ys[..n] == Map(Favour(p.id), xs[..n]);
      assert ys[n] == Favour(p.id)(xs[n]);
      assert forall x | x in xs[..n] :: x in xs;
      assert xs[n] in xs;
      CountFavoured(xs[..n], p);
      CountLast(xs, p);
    }
  }

  /** A sort that keeps p whenever those nearer and p itself fit. */
  lemma FavouredSort(xs: seq<PeerDistance>, p: PeerDistance) returns (t: seq<PeerDistance>)
    requires Consistent(xs, p)
    ensures IsSortOf(xs, t) && |t| == |xs|
    ensures forall r | 0 <= r < |t| && t[r] == p :: r < CountNearer(xs, p.distance) + multiset(xs)[p]
  {
    hide CountNearer, Map;
    var ys := Map(Favour(p.id), xs);
    var s := SomeSort(ys);
    t := Map(Restore, s);
    MapPermutes(Restore, ys, s);
    assert Map(Restore, ys) == xs by { RestoreFavoured(p.id, xs); }
    CountFavoured(xs, p);
    CountNearerMultiset(ys, s, 2 * p.distance + 1);
    FavouredTwice(p.id, ys, s, xs);
    forall r | 0 <= r < |t| && t[r] == p
      ensures r < CountNearer(xs, p.distance) + multiset(xs)[p]
    {
      assert s[r].distance == 2 * p.distance;
      CountAtLeast(s, r + 1, 2 * p.distance + 1);
    }
  }

  lemma RestoreFavoured(p: PeerID, xs: seq<PeerDistance>)
    ensures Map(Restore, Map(Favour(p), xs)) == xs
  {
  }

  lemma FavouredTwice(p: PeerID, ys: seq<PeerDistance>, s: seq<PeerDistance>, xs: seq<PeerDistance>)
    requires ys == Map(Favour(p), xs) && multiset(ys) == multiset(s)
    ensures forall r | 0 <= r < |s| && s[r].id == p :: s[r].distance == 2 * (s[r].distance / 2)
  {
    forall r | 0 <= r < |s| && s[r].id == p
      ensures s[r].distance == 2 * (s[r].distance / 2)
    {
      assert s[r] in multiset(ys);
      var i :| 0 <= i < |ys| && ys[i] == s[r];
    }
  }

  lemma NoIds(t: seq<PeerDistance>)
    ensures Ids(t[|t|..]) == []
  {
  }

  /** Whoever is kept fits together with those nearer. */
  lemma KeptFit(xs: seq<PeerDistance>, k: nat, p: PeerDistance, evicted: seq<PeerID>)
    requires p in xs && k <= |xs| && Consistent(xs, p) && Evicts(xs, k, evicted) && p.id !in evicted
    ensures CountNearer(xs, p.distance) + multiset(xs)[p] <= k
  {
    hide CountNearer, Ids, Favour;
    if k == |xs| {
      CountFavoured(xs, p);
      CountBound(Map(Favour(p.id), xs), 2 * p.distance + 1);
    } else {
      var t: seq<PeerDistance> :| EvictedBy(xs, k, t, evicted);
      SortedConsistent(xs, t, p);
      assert p in multiset(t);
      HeadFits(t, k, p);
      CountNearerMultiset(xs, t, p.distance);
    }
  }

  lemma HeadFits(t: seq<PeerDistance>, k: nat, p: PeerDistance)
    requires Sorted(t) && p in t && k <= |t| && Consistent(t, p) && p.id !in Ids(t[k..])
    ensures CountNearer(t, p.distance) + multiset(t)[p] <= k
  {
    hide CountNearer, Ids, Sorted;
    TailIsBehind(t, k, p);
    FavouredTail(t, k, p);
    CountAtMost(Map(Favour(p.id), t), k, 2 * p.distance + 1);
    CountFavoured(t, p);
  }

  lemma TailIsBehind(t: seq<PeerDistance>, k: nat, p: PeerDistance)
    requires Sorted(t) && p in t && k <= |t| && p.id !in Ids(t[k..])
    ensures forall j | k <= j < |t| :: t[j].id != p.id && t[j].distance >= p.distance
  {
    hide Ids;
    var i :| 0 <= i < |t| && t[i] == p;
    TailHolds(t, k, i);
    forall j | k <= j < |t|
      ensures t[j].id != p.id
    {
      TailHolds(t, k, j);
    }
  }

  lemma FavouredTail(t: seq<PeerDistance>, k: nat, p: PeerDistance)
    requires k <= |t| && forall j | k <= j < |t| :: t[j].id != p.id && t[j].distance >= p.distance
    ensures forall j | k <= j < |t| :: Map(Favour(p.id), t)[j].distance >= 2 * p.distance + 1
  {
  }

  /** Some sort keeps p, as often as it is listed, if and only if p and those nearer fit. */
  lemma SomeSortKeeps(xs: seq<PeerDistance>, k: nat, p: PeerDistance)
    requires p in xs && k <= |xs| && Consistent(xs, p)
    ensures (exists evicted :: Evicts(xs, k, evicted) && p.id !in evicted)
       <==> CountNearer(xs, p.distance) + multiset(xs)[p] <= k
  {
    hide CountNearer, Ids;
    if CountNearer(xs, p.distance) + multiset(xs)[p] <= k {
      var t := FavouredSort(xs, p);
      var evicted := Ids(t[k..]);
      assert EvictedBy(xs, k, t, evicted);
      if p.id in evicted {
        var r := IndexInTail(t, k, p.id);
        SortedConsistent(xs, t, p);
      }
      assert k == |xs| ==> evicted == [] by { NoIds(t); }
    }
    forall evicted | Evicts(xs, k, evicted) && p.id !in evicted
      ensures CountNearer(xs, p.distance) + multiset(xs)[p] <= k
    {
      KeptFit(xs, k, p, evicted);
    }
  }

  lemma {:induction false} UntiedCount(xs: seq<PeerDistance>, p: PeerDistance)
    requires forall x | x in xs && x.distance == p.distance :: x == p
    ensures CountNearer(xs, p.distance + 1) == CountNearer(xs, p.distance) + multiset(xs)[p]
  {
    if xs != [] {
      var n := |xs| - 1;
      assert xs[n] in xs && forall x | x in xs[..n] :: x in xs;
      UntiedCount(xs[..n], p);
      CountLast(xs, p);
    }
  }

  /** A peer that no other peer of the list ties is evicted exactly when it does not fit with the
      nearer ones, whatever the sort did with other ties. */
  lemma RankDecides(xs: seq<PeerDistance>, numKeep: int, evicted: seq<PeerID>, p: PeerDistance)
    requires Evicts(xs, numKeep, evicted) && p in xs && Consistent(xs, p)
    requires forall x | x in xs && x.distance == p.distance :: x == p
    ensures p.id in evicted <==> CountNearer(xs, p.distance) + multiset(xs)[p] > Clamp(numKeep, |xs|)
  {
    hide CountNearer, Ids;
    var k := Clamp(numKeep, |xs|);
    assert Evicts(xs, k, evicted) by {
      if k < |xs| {
        var t: seq<PeerDistance> :| EvictedBy(xs, numKeep, t, evicted);
        assert EvictedBy(xs, k, t, evicted);
      }
    }
    UntiedCount(xs, p);
    if p.id in evicted {
      SomeSortEvicts(xs, k, p);
    } else {
      KeptFit(xs, k, p, evicted);
    }
  }

  // ---------------------------------------------------------------- sorts that keep ties in order

  /** The peers at one distance, in order. */
  function AtDistance(xs: seq<PeerDistance>, d: nat): seq<PeerDistance> {
    if xs == [] then [] else
    var n := |xs| - 1;
    AtDistance(xs[..n], d) + (if xs[n].distance == d then [xs[n]] else [])
  }

  ghost predicate KeepsTies(xs: seq<PeerDistance>, sorted: seq<PeerDistance>) {
    forall d :: AtDistance(sorted, d) == AtDistance(xs, d)
  }

  lemma {:induction false} AtDistanceConcat(xs: seq<PeerDistance>, ys: seq<PeerDistance>, d: nat)
    ensures AtDistance(xs + ys, d) == AtDistance(xs, d) + AtDistance(ys, d)
  {
    if ys == [] {
      assert xs + ys == xs;
    } else {
      var n := |ys| - 1;
      assert (xs + ys)[..|xs| + n] == xs + ys[..n];
      AtDistanceConcat(xs, ys[..n], d);
    }
  }

  lemma AtDistanceTwo(x: PeerDistance, y: PeerDistance, d: nat)
    requires x.distance != y.distance
    ensures AtDistance([x, y], d) == AtDistance([y, x], d)
  {
    assert [x, y][..1] == [x] && [y, x][..1] == [y];
    assert [x][..0] == [] && [y][..0] == [];
    assert AtDistance([x], d) == if x.distance == d then [x] else [];
    assert AtDistance([y], d) == if y.distance == d then [y] else [];
  }

  /** Exchanging neighbours at different distances keeps ties in order. */
  lemma NeighboursKeepTies(xs: seq<PeerDistance>, s: seq<PeerDistance>, t: seq<PeerDistance>, j: nat)
    requires KeepsTies(xs, s) && 0 < j < |s| && s[j].distance != s[j - 1].distance
    requires t == s[j := s[j - 1]][j - 1 := s[j]]
    ensures KeepsTies(xs, t)
  {
    hide AtDistance;
    var a, b := s[..j - 1], s[j + 1..];
    assert s == a + [s[j - 1], s[j]] + b && t == a + [s[j], s[j - 1]] + b;
    forall d
      ensures AtDistance(t, d) == AtDistance(xs, d)
    {
      AtDistanceConcat(a + [s[j - 1], s[j]], b, d);
      AtDistanceConcat(a, [s[j - 1], s[j]], d);
      AtDistanceConcat(a + [s[j], s[j - 1]], b, d);
      AtDistanceConcat(a, [s[j], s[j - 1]], d);
      AtDistanceTwo(s[j - 1], s[j], d);
      assert AtDistance(s, d) == AtDistance(xs, d);
    }
  }

  /** The last peer at a distance. */
  lemma {:induction false} LastAtDistance(s: seq<PeerDistance>, j: nat) returns (l: nat)
    requires j < |s|
    ensures j <= l < |s| && s[l].distance == s[j].distance
    ensures var ties := AtDistance(s, s[j].distance);
            ties != [] && ties[|ties| - 1] == s[l]
  {
    var n := |s| - 1;
    if s[n].distance == s[j].distance {
      l := n;
    } else {
      l := LastAtDistance(s[..n], j);
    }
  }

  /** If the last peer of a list is kept by a sort that keeps ties in order, all it ties are kept
      with it, and so no sort evicts it. */
  lemma LastIsSafe(xs: seq<PeerDistance>, k: nat, sorted: seq<PeerDistance>, p: PeerDistance)
    requires xs != [] && xs[|xs| - 1] == p && IsSortOf(xs, sorted) && KeepsTies(xs, sorted)
    requires k <= |sorted| && p.id !in Ids(sorted[k..])
    ensures CountNearer(xs, p.distance + 1) <= k
  {
    hide CountNearer, Ids;
    assert p in multiset(sorted);
    TailIsBehind(sorted, k, p);
    forall j | k <= j < |sorted|
      ensures sorted[j].distance >= p.distance + 1
    {
      if sorted[j].distance == p.distance {
        LastOfTies(xs, sorted, j, p);
        var l := LastAtDistance(sorted, j);
        TailHolds(sorted, k, l);
      }
    }
    CountAtMost(sorted, k, p.distance + 1);
    CountNearerMultiset(xs, sorted, p.distance + 1);
  }

  lemma LastOfTies(xs: seq<PeerDistance>, sorted: seq<PeerDistance>, j: nat, p: PeerDistance)
    requires xs != [] && xs[|xs| - 1] == p && KeepsTies(xs, sorted) && j < |sorted|
    ensures var ties := AtDistance(sorted, p.distance); ties != [] && ties[|ties| - 1] == p
  {
    assert AtDistance(sorted, p.distance) == AtDistance(xs, p.distance);
  }

  // ---------------------------------------------------------------- in place

  predicate Less(a: array<PeerDistance>, i: nat, j: nat)
    requires i < a.Length && j < a.Length
    reads a
  {
    a[i].distance < a[j].distance
  }

  method Swap(a: array<PeerDistance>, i: nat, j: nat)
    requires i < a.Length && j < a.Length
    modifies a
    ensures a[..] == old(a[..])[i := old(a[j])][j := old(a[i])]
    ensures multiset(a[..]) == multiset(old(a[..]))
  {
    a[i], a[j] := a[j], a[i];
  }

  /** Sorts through Less and Swap only, as `sort.Sort` does. This one keeps ties in order, which
      nothing below relies on. */
  method Sort(a: array<PeerDistance>)
    modifies a
    ensures IsSortOf(old(a[..]), a[..]) && KeepsTies(old(a[..]), a[..])
  {
    hide AtDistance, KeepsTies;
    SameKeepsTies(a[..]);
    var i := 0;
    while i < a.Length
      invariant i <= a.Length
      invariant multiset(a[..]) == multiset(old(a[..])) && KeepsTies(old(a[..]), a[..])
      invariant Sorted(a[..i])
    {
      Insert(a, i, old(a[..]));
      i := i + 1;
    }
    assert a[..] == a[..a.Length];
  }

  lemma SameKeepsTies(xs: seq<PeerDistance>)
    ensures KeepsTies(xs, xs)
  {
  }

  /** The first n + 1 peers are sorted, but for the one at j, which may be too far up. */
  ghost predicate SortedBut(s: seq<PeerDistance>, n: nat, j: nat) {
    n < |s| && forall p, q | 0 <= p < q <= n && q != j :: s[p].distance <= s[q].distance
  }

  lemma SortedButLast(s: seq<PeerDistance>, n: nat)
    requires n < |s| && Sorted(s[..n])
    ensures SortedBut(s, n, n)
  {
    assert forall p | 0 <= p < n :: s[..n][p] == s[p];
  }

  lemma MovedDown(s: seq<PeerDistance>, t: seq<PeerDistance>, n: nat, j: nat)
    requires SortedBut(s, n, j) && 0 < j <= n && s[j].distance < s[j - 1].distance
    requires t == s[j := s[j - 1]][j - 1 := s[j]]
    ensures SortedBut(t, n, j - 1)
  {
  }

  lemma InPlaceNow(s: seq<PeerDistance>, n: nat, j: nat)
    requires SortedBut(s, n, j) && j <= n && (j == 0 || s[j - 1].distance <= s[j].distance)
    ensures Sorted(s[..n + 1])
  {
  }

  /** Moves a[n] down to its place in the sorted prefix. */
  method Insert(a: array<PeerDistance>, n: nat, ghost start: seq<PeerDistance>)
    requires n < a.Length && Sorted(a[..n]) && KeepsTies(start, a[..])
    modifies a
    ensures multiset(a[..]) == multiset(old(a[..])) && Sorted(a[..n + 1]) && KeepsTies(start, a[..])
  {
    hide AtDistance, KeepsTies, SortedBut, Sorted;
    var j: nat := n;
    PrefixOf(a, n);
    SortedButLast(a[..], n);
    while j > 0 && Less(a, j, j - 1)
      invariant j <= n
      invariant multiset(a[..]) == multiset(old(a[..])) && KeepsTies(start, a[..])
      invariant SortedBut(a[..], n, j)
    {
      ghost var before := a[..];
      Swap(a, j, j - 1);
      NeighboursKeepTies(start, before, a[..], j);
      MovedDown(before, a[..], n, j);
      j := j - 1;
    }
    InPlaceNow(a[..], n, j);
    PrefixOf(a, n + 1);
  }

  lemma PrefixOf(a: array<PeerDistance>, n: nat)
    requires n <= a.Length
    ensures a[..][..n] == a[..n]
  {
  }

  method Evict(distances: seq<PeerDistance>, numKeep: int) returns (evicted: seq<PeerID>)
    ensures Evicts(distances, numKeep, evicted)
  {
    var keep := if numKeep < 0 then 0 else numKeep;
    var a := new PeerDistance[|distances|](i requires 0 <= i < |distances| => distances[i]);
    if keep >= |distances| {
      return [];
    }
    assert a[..] == distances;
    Sort(a);
    SameLength(distances, a[..]);
    evicted := Ids(a[keep..]);
    assert a[..][keep..] == a[keep..];
    assert EvictedBy(distances, numKeep, a[..], evicted);
  }
}
