/** The peers rating handler: two caches that together hold one clamped rating per peer. A cache
    may drop entries whenever something is put into it; which ones is a parameter of the put. */
module Rating {

  import opened Common

  const DEFAULT_RATING: int := 0
  const MIN_RATING: int := -100
  const MAX_RATING: int := 100
  const INCREASE_FACTOR: int := 2
  const DECREASE_FACTOR: int := -1
  const MIN_NUM_OF_PEERS: int := 1

  type Ratings = map<PeerID, int>

  datatype Caches = Caches(top: Ratings, bad: Ratings)

  // ---------------------------------------------------------------- the caches as values

  /** A put that drops some entries, possibly the new one. */
  function Put(cache: Ratings, p: PeerID, rating: int, dropped: set<PeerID>): Ratings {
    cache[p := rating] - dropped
  }

  function Clamped(rating: int): int {
    if rating > MAX_RATING then MAX_RATING
    else if rating < MIN_RATING then MIN_RATING
    else rating
  }

  predicate IsTopTier(rating: int) {
    rating >= DEFAULT_RATING
  }

  function OldRating(c: Caches, p: PeerID): (int, bool) {
    if p in c.top then (c.top[p], true)
    else if p in c.bad then (c.bad[p], true)
    else (DEFAULT_RATING, false)
  }

  function Tier(c: Caches, top: bool): Ratings {
    if top then c.top else c.bad
  }

  /** `updateRating` with everything it calls. */
  function Updated(c: Caches, p: PeerID, factor: int, dropped: set<PeerID>): Caches {
    var (was, found) := OldRating(c, p);
    if !found then c.(top := Put(c.top, p, DEFAULT_RATING, dropped))
    else
      var rating := Clamped(was + factor);
      if IsTopTier(rating) == IsTopTier(was) then
        if IsTopTier(rating) then c.(top := Put(c.top, p, rating, dropped))
        else c.(bad := Put(c.bad, p, rating, dropped))
      else if IsTopTier(rating) then Caches(Put(c.top, p, rating, dropped), c.bad - {p})
      else Caches(c.top - {p}, Put(c.bad, p, rating, dropped))
  }

  /** No peer is in both caches, and each cache holds the ratings of its tier. */
  ghost predicate Valid(c: Caches) {
    && c.top.Keys !! c.bad.Keys
    && (forall p | p in c.top :: 0 <= c.top[p] <= MAX_RATING)
    && (forall p | p in c.bad :: MIN_RATING <= c.bad[p] <= -1)
  }

  /** The peers that `splitPeersByTiers` puts into the bad tier; all others count as top rated. */
  function BadRated(peers: seq<PeerID>, bad: Ratings): seq<PeerID> {
    if peers == [] then [] else
    var n := |peers| - 1;
    BadRated(peers[..n], bad) + (if peers[n] in bad then [peers[n]] else [])
  }

  function TopRated(peers: seq<PeerID>, bad: Ratings): seq<PeerID> {
    if peers == [] then [] else
    var n := |peers| - 1;
    TopRated(peers[..n], bad) + (if peers[n] in bad then [] else [peers[n]])
  }

  /** The top cache after a query: peers in neither cache are put with the default rating;
      `drops[i]` is what the put for position i drops, if there is one. */
  function Touched(c: Caches, peers: seq<PeerID>, drops: seq<set<PeerID>>): Ratings
    requires |drops| == |peers|
  {
    if peers == [] then c.top else
    var n := |peers| - 1;
    var top := Touched(c, peers[..n], drops[..n]);
    if peers[n] in top || peers[n] in c.bad then top else Put(top, peers[n], DEFAULT_RATING, drops[n])
  }

  // ---------------------------------------------------------------- operations

  datatype Op =
    | Increase(p: PeerID, dropped: set<PeerID>)
    | Decrease(p: PeerID, dropped: set<PeerID>)
    | Query(peers: seq<PeerID>, minExpected: int, drops: seq<set<PeerID>>)

  predicate WellFormed(op: Op) {
    op.Query? ==> |op.drops| == |op.peers|
  }

  function Apply(c: Caches, op: Op): Caches
    requires WellFormed(op)
  {
    match op
    case Increase(p, dropped) => Updated(c, p, INCREASE_FACTOR, dropped)
    case Decrease(p, dropped) => Updated(c, p, DECREASE_FACTOR, dropped)
    case Query(peers, minExpected, drops) =>
      if minExpected < MIN_NUM_OF_PEERS || |peers| == 0 then c else c.(top := Touched(c, peers, drops))
  }

  function ApplyAll(c: Caches, ops: seq<Op>): Caches
    requires forall op | op in ops :: WellFormed(op)
  {
    if ops == [] then c else Apply(ApplyAll(c, ops[..|ops| - 1]), ops[|ops| - 1])
  }

  /** A put, entry by entry. */
  lemma IsPut(cache: Ratings, was: Ratings, p: PeerID, rating: int, dropped: set<PeerID>)
    requires (p in cache <==> p !in dropped) && (p in cache ==> cache[p] == rating)
    requires forall q | q != p :: q in cache <==> q in was && q !in dropped
    requires forall q | q != p && q in cache :: cache[q] == was[q]
    ensures cache == Put(was, p, rating, dropped)
  {
  }

  lemma UpdateKeepsValid(c: Caches, p: PeerID, factor: int, dropped: set<PeerID>)
    requires Valid(c)
    ensures Valid(Updated(c, p, factor, dropped))
  {
  }

  lemma {:induction false} TouchKeepsValid(c: Caches, peers: seq<PeerID>, drops: seq<set<PeerID>>)
    requires Valid(c) && |drops| == |peers|
    ensures Valid(c.(top := Touched(c, peers, drops)))
  {
    if peers != [] {
      TouchKeepsValid(c, peers[..|peers| - 1], drops[..|peers| - 1]);
    }
  }

  /** Over every sequence of operations, and whatever the caches drop, the tiers stay apart and
      in range. */
  lemma {:induction false} AlwaysValid(ops: seq<Op>)
    requires forall op | op in ops :: WellFormed(op)
    ensures Valid(ApplyAll(Caches(map[], map[]), ops))
  {
    hide Valid, Updated, Touched;
    var start := Caches(map[], map[]);
    if ops == [] {
      EmptyIsValid();
    } else {
      var n := |ops| - 1;
      assert ops[n] in ops && forall op | op in ops[..n] :: op in ops;
      AlwaysValid(ops[..n]);
      var c := ApplyAll(start, ops[..n]);
      match ops[n]
      case Increase(p, dropped) => UpdateKeepsValid(c, p, INCREASE_FACTOR, dropped);
      case Decrease(p, dropped) => UpdateKeepsValid(c, p, DECREASE_FACTOR, dropped);
      case Query(peers, _, drops) => TouchKeepsValid(c, peers, drops);
    }
  }

  lemma EmptyIsValid()
    ensures Valid(Caches(map[], map[]))
  {
  }

  // ---------------------------------------------------------------- refinement of one map

  /** The one map that the two caches stand for. */
  function Merged(c: Caches): Ratings {
    c.bad + c.top
  }

  /** The rating of a peer after a bump: 0 on first touch, then the clamped sum. */
  function Bumped(ratings: Ratings, p: PeerID, factor: int): Ratings {
    ratings[p := if p in ratings then Clamped(ratings[p] + factor) else DEFAULT_RATING]
  }

  /** Every peer that was never touched gets the default rating. */
  function Seen(ratings: Ratings, peers: seq<PeerID>): Ratings {
    if peers == [] then ratings else
    var before := Seen(ratings, peers[..|peers| - 1]);
    var p := peers[|peers| - 1];
    if p in before then before else before[p := DEFAULT_RATING]
  }

  function ApplyToMap(ratings: Ratings, op: Op): Ratings {
    match op
    case Increase(p, _) => Bumped(ratings, p, INCREASE_FACTOR)
    case Decrease(p, _) => Bumped(ratings, p, DECREASE_FACTOR)
    case Query(peers, minExpected, _) => if minExpected < MIN_NUM_OF_PEERS then ratings else Seen(ratings, peers)
  }

  function ApplyAllToMap(ratings: Ratings, ops: seq<Op>): Ratings {
    if ops == [] then ratings else ApplyToMap(ApplyAllToMap(ratings, ops[..|ops| - 1]), ops[|ops| - 1])
  }

  /** The operation drops nothing. */
  predicate Keeps(op: Op) {
    match op
    case Increase(_, dropped) => dropped == {}
    case Decrease(_, dropped) => dropped == {}
    case Query(_, _, drops) => forall d | d in drops :: d == {}
  }

  lemma UpdateRefines(c: Caches, p: PeerID, factor: int)
    requires Valid(c)
    ensures Merged(Updated(c, p, factor, {})) == Bumped(Merged(c), p, factor)
  {
  }

  lemma MergedPut(c: Caches, p: PeerID)
    ensures Merged(c.(top := Put(c.top, p, DEFAULT_RATING, {}))) == Merged(c)[p := DEFAULT_RATING]
    ensures p in Merged(c) <==> p in c.top || p in c.bad
  {
  }

  lemma {:induction false} TouchRefines(c: Caches, peers: seq<PeerID>, drops: seq<set<PeerID>>)
    requires Valid(c) && |drops| == |peers| && forall d | d in drops :: d == {}
    ensures Merged(c.(top := Touched(c, peers, drops))) == Seen(Merged(c), peers)
  {
    hide Merged, Put, Valid;
    if peers != [] {
      var n := |peers| - 1;
      assert forall d | d in drops[..n] :: d in drops;
      TouchRefines(c, peers[..n], drops[..n]);
      assert drops[n] in drops;
      MergedPut(c.(top := Touched(c, peers[..n], drops[..n])), peers[n]);
    }
  }

  /** With caches that drop nothing, the pair is exactly one map of clamped ratings. */
  lemma {:induction false} RefinesOneMap(ops: seq<Op>)
    requires forall op | op in ops :: WellFormed(op) && Keeps(op)
    ensures Merged(ApplyAll(Caches(map[], map[]), ops)) == ApplyAllToMap(map[], ops)
  {
    hide Valid, Updated, Touched, Merged, Bumped, Seen;
    var start := Caches(map[], map[]);
    if ops == [] {
      EmptyMerges();
    } else {
      var n := |ops| - 1;
      assert ops[n] in ops && forall op | op in ops[..n] :: op in ops;
      RefinesOneMap(ops[..n]);
      AlwaysValid(ops[..n]);
      var c := ApplyAll(start, ops[..n]);
      match ops[n]
      case Increase(p, dropped) => UpdateRefines(c, p, INCREASE_FACTOR);
      case Decrease(p, dropped) => UpdateRefines(c, p, DECREASE_FACTOR);
      case Query(peers, minExpected, drops) =>
        TouchRefines(c, peers, drops);
        SeenNothing(Merged(c));
    }
  }

  lemma EmptyMerges()
    ensures Merged(Caches(map[], map[])) == map[]
  {
  }

  lemma SeenNothing(ratings: Ratings)
    ensures Seen(ratings, []) == ratings
  {
  }

  // ---------------------------------------------------------------- the rating of one peer

  /** Clamping goes to the nearest rating of the range. */
  lemma ClampedIsNearest(rating: int, other: int)
    requires -100 <= other <= 100
    ensures -100 <= Clamped(rating) <= 100
    ensures -100 <= rating <= 100 ==> Clamped(rating) == rating
    ensures var c := Clamped(rating);
            (if rating < c then c - rating else rating - c) <= (if rating < other then other - rating else rating - other)
  {
  }

  /** The rating of one peer after some operations, told without caches: 0 when it is first named,
      then 2 up to at most 100, or 1 down to at least -100. */
  function Rated(ops: seq<Op>, p: PeerID): Option<int> {
    if ops == [] then None else
    var before := Rated(ops[..|ops| - 1], p);
    match ops[|ops| - 1]
    case Increase(q, _) =>
      if q != p then before
      else if before.None? then Some(0)
      else Some(if before.value >= 98 then 100 else before.value + 2)
    case Decrease(q, _) =>
      if q != p then before
      else if before.None? then Some(0)
      else Some(if before.value <= -99 then -100 else before.value - 1)
    case Query(peers, minExpected, _) =>
      if before.None? && p in peers && minExpected >= 1 then Some(0) else before
  }

  function Lookup(ratings: Ratings, p: PeerID): Option<int> {
    if p in ratings then Some(ratings[p]) else None
  }

  /** With caches that drop nothing, that is where every peer is found, in the cache of its tier. */
  lemma RatedExactly(ops: seq<Op>, p: PeerID)
    requires forall op | op in ops :: WellFormed(op) && Keeps(op)
    ensures var c := ApplyAll(Caches(map[], map[]), ops);
            && (Rated(ops, p).None? <==> p !in c.top && p !in c.bad)
            && (p in c.top <==> Rated(ops, p).Some? && Rated(ops, p).value >= 0)
            && (p in c.bad <==> Rated(ops, p).Some? && Rated(ops, p).value < 0)
            && (p in c.top ==> Some(c.top[p]) == Rated(ops, p))
            && (p in c.bad ==> Some(c.bad[p]) == Rated(ops, p))
  {
    hide ApplyAll, ApplyAllToMap;
    RefinesOneMap(ops);
    AlwaysValid(ops);
    RatedInMap(ops, p);
  }

  lemma {:induction false} RatedInMap(ops: seq<Op>, p: PeerID)
    ensures Lookup(ApplyAllToMap(map[], ops), p) == Rated(ops, p)
    ensures Rated(ops, p).Some? ==> -100 <= Rated(ops, p).value <= 100
  {
    if ops != [] {
      var n := |ops| - 1;
      RatedInMap(ops[..n], p);
      if ops[n].Query? {
        SeenLookup(ApplyAllToMap(map[], ops[..n]), ops[n].peers, p);
      }
    }
  }

  lemma {:induction false} SeenLookup(ratings: Ratings, peers: seq<PeerID>, p: PeerID)
    ensures Lookup(Seen(ratings, peers), p)
         == if p in ratings then Some(ratings[p]) else if p in peers then Some(0) else None
  {
    if peers != [] {
      var n := |peers| - 1;
      SeenLookup(ratings, peers[..n], p);
      assert p in peers <==> p in peers[..n] || p == peers[n];
    }
  }

  function Repeated(op: Op, n: nat): seq<Op> {
    seq(n, _ => op)
  }

  /** A peer with a known rating that is increased n times. */
  lemma {:induction false} IncreasedTimes(ops: seq<Op>, p: PeerID, n: nat, dropped: set<PeerID>)
    requires Rated(ops, p).Some?
    ensures var r := Rated(ops, p).value;
            n > 0 ==> Rated(ops + Repeated(Increase(p, dropped), n), p) == Some(if r + 2 * n > 100 then 100 else r + 2 * n)
    ensures Rated(ops + Repeated(Increase(p, dropped), 0), p) == Rated(ops, p)
  {
    assert ops + Repeated(Increase(p, dropped), 0) == ops;
    if n > 0 {
      IncreasedTimes(ops, p, n - 1, dropped);
      var all := ops + Repeated(Increase(p, dropped), n);
      assert all[..|all| - 1] == ops + Repeated(Increase(p, dropped), n - 1);
    }
  }

  /** A peer with a known rating that is decreased n times. */
  lemma {:induction false} DecreasedTimes(ops: seq<Op>, p: PeerID, n: nat, dropped: set<PeerID>)
    requires Rated(ops, p).Some?
    ensures var r := Rated(ops, p).value;
            n > 0 ==> Rated(ops + Repeated(Decrease(p, dropped), n), p) == Some(if r - n < -100 then -100 else r - n)
    ensures Rated(ops + Repeated(Decrease(p, dropped), 0), p) == Rated(ops, p)
  {
    assert ops + Repeated(Decrease(p, dropped), 0) == ops;
    if n > 0 {
      DecreasedTimes(ops, p, n - 1, dropped);
      var all := ops + Repeated(Decrease(p, dropped), n);
      assert all[..|all| - 1] == ops + Repeated(Decrease(p, dropped), n - 1);
    }
  }

  // ---------------------------------------------------------------- tiers

  /** Together the tiers are a permutation of the list. */
  lemma {:induction false} TiersPartition(peers: seq<PeerID>, bad: Ratings)
    ensures multiset(peers) == multiset(TopRated(peers, bad)) + multiset(BadRated(peers, bad))
  {
    if peers != [] {
      var n := |peers| - 1;
      TiersPartition(peers[..n], bad);
      assert peers == peers[..n] + [peers[n]];
    }
  }

  ghost predicate Increasing(at: seq<nat>) {
    forall i, j | 0 <= i < j < |at| :: at[i] < at[j]
  }

  /** The tier lists name the given positions of the input, in order. */
  ghost predicate Picks(peers: seq<PeerID>, at: seq<nat>, tier: seq<PeerID>) {
    && |at| == |tier| && Increasing(at)
    && forall i | 0 <= i < |at| :: at[i] < |peers| && peers[at[i]] == tier[i]
  }

  lemma PickNone(peers: seq<PeerID>)
    ensures Picks(peers, [], [])
  {
  }

  lemma PicksBelow(peers: seq<PeerID>, at: seq<nat>, tier: seq<PeerID>)
    requires Picks(peers, at, tier)
    ensures |peers| !in at
  {
  }

  lemma PickMore(peers: seq<PeerID>, at: seq<nat>, tier: seq<PeerID>)
    requires peers != [] && Picks(peers[..|peers| - 1], at, tier)
    ensures Picks(peers, at, tier)
    ensures Picks(peers, at + [|peers| - 1], tier + [peers[|peers| - 1]])
  {
  }

  /** Every input position is in exactly one tier, and the tiers keep the order of the input. */
  lemma {:induction false} TiersInOrder(peers: seq<PeerID>, bad: Ratings) returns (top: seq<nat>, low: seq<nat>)
    ensures Picks(peers, top, TopRated(peers, bad)) && Picks(peers, low, BadRated(peers, bad))
    ensures forall k | 0 <= k < |peers| :: (k in top <==> k !in low) && (k in low <==> peers[k] in bad)
  {
    hide Increasing, Picks;
    top, low := [], [];
    PickNone(peers);
    if peers != [] {
      var n := |peers| - 1;
      top, low := TiersInOrder(peers[..n], bad);
      PickMore(peers, top, TopRated(peers[..n], bad));
      PickMore(peers, low, BadRated(peers[..n], bad));
      assert TopRated(peers[..n], bad) + [] == TopRated(peers[..n], bad);
      assert BadRated(peers[..n], bad) + [] == BadRated(peers[..n], bad);
      assert forall k | 0 <= k < n :: peers[..n][k] == peers[k];
      PicksBelow(peers[..n], top, TopRated(peers[..n], bad));
      PicksBelow(peers[..n], low, BadRated(peers[..n], bad));
      if peers[n] in bad {
        low := PickLast(low, n);
      } else {
        top := PickLast(top, n);
      }
    }
  }

  lemma PickLast(at: seq<nat>, n: nat) returns (r: seq<nat>)
    ensures r == at + [n] && forall k :: k in r <==> k in at || k == n
  {
    r := at + [n];
  }

  // ---------------------------------------------------------------- the handler

  class PeersRatingHandler {
    var topRatedCache: Ratings
    var badRatedCache: Ratings

    function Contents(): Caches
      reads this
    {
      Caches(topRatedCache, badRatedCache)
    }

    constructor ()
      ensures Contents() == Caches(map[], map[]) && Valid(Contents())
    {
      topRatedCache, badRatedCache := map[], map[];
    }

    method IncreaseRating(p: PeerID, dropped: set<PeerID>)
      requires Valid(Contents())
      modifies this
      ensures Contents() == Apply(old(Contents()), Increase(p, dropped)) && Valid(Contents())
    {
      UpdateRating(p, INCREASE_FACTOR, dropped);
    }

    method DecreaseRating(p: PeerID, dropped: set<PeerID>)
      requires Valid(Contents())
      modifies this
      ensures Contents() == Apply(old(Contents()), Decrease(p, dropped)) && Valid(Contents())
    {
      UpdateRating(p, DECREASE_FACTOR, dropped);
    }

    method UpdateRating(p: PeerID, factor: int, dropped: set<PeerID>)
      requires Valid(Contents())
      modifies this
      ensures Contents() == Updated(old(Contents()), p, factor, dropped) && Valid(Contents())
    {
      hide Put, Valid;
      UpdateKeepsValid(Contents(), p, factor, dropped);
      var (oldRating, found) := OldRating(Contents(), p);
      if !found {
        topRatedCache := Put(topRatedCache, p, DEFAULT_RATING, dropped);
        return;
      }
      var newRating := oldRating + factor;
      if newRating > MAX_RATING {
        newRating := MAX_RATING;
      }
      if newRating < MIN_RATING {
        newRating := MIN_RATING;
      }
      var was := Tier(Contents(), IsTopTier(newRating));
      UpdateRatingCacher(p, oldRating, newRating, dropped);
      IsPut(Tier(Contents(), IsTopTier(newRating)), was, p, newRating, dropped);
    }

    /** The peer ends in the cache of its new tier, unless that drops it; the rest of that cache is
        what was not dropped, and the other cache loses at most the peer. */
    method UpdateRatingCacher(p: PeerID, oldRating: int, newRating: int, dropped: set<PeerID>)
      modifies this
      ensures var mine, was := Tier(Contents(), IsTopTier(newRating)), old(Tier(Contents(), IsTopTier(newRating)));
              && (p in mine <==> p !in dropped) && (p in mine ==> mine[p] == newRating)
              && (forall q | q != p :: q in mine <==> q in was && q !in dropped)
              && (forall q | q != p && q in mine :: mine[q] == was[q])
      ensures var other, was := Tier(Contents(), !IsTopTier(newRating)), old(Tier(Contents(), !IsTopTier(newRating)));
              other == if IsTopTier(oldRating) == IsTopTier(newRating) then was else was - {p}
    {
      if IsTopTier(newRating) == IsTopTier(oldRating) {
        if IsTopTier(newRating) {
          topRatedCache := Put(topRatedCache, p, newRating, dropped);
        } else {
          badRatedCache := Put(badRatedCache, p, newRating, dropped);
        }
        return;
      }
      if IsTopTier(newRating) {
        badRatedCache := badRatedCache - {p};
        topRatedCache := Put(topRatedCache, p, newRating, dropped);
      } else {
        topRatedCache := topRatedCache - {p};
        badRatedCache := Put(badRatedCache, p, newRating, dropped);
      }
    }

    /** Every position lands in exactly one tier, in order. */
    method SplitPeersByTiers(peers: seq<PeerID>, drops: seq<set<PeerID>>) returns (top: seq<PeerID>, bad: seq<PeerID>)
      requires Valid(Contents()) && |drops| == |peers|
      modifies this`topRatedCache
      ensures Valid(Contents())
      ensures topRatedCache == Touched(old(Contents()), peers, drops)
      ensures top == TopRated(peers, badRatedCache) && bad == BadRated(peers, badRatedCache)
    {
      top, bad := [], [];
      ghost var start := Contents();
      for i := 0 to |peers|
        invariant top == TopRated(peers[..i], badRatedCache) && bad == BadRated(peers[..i], badRatedCache)
        invariant topRatedCache == Touched(start, peers[..i], drops[..i])
        invariant Valid(Contents())
      {
        assert peers[..i + 1][..i] == peers[..i] && drops[..i + 1][..i] == drops[..i];
        var peer := peers[i];
        var isNewPeer := true;
        if peer in topRatedCache {
          top := top + [peer];
          isNewPeer := false;
        }
        if peer in badRatedCache {
          bad := bad + [peer];
          isNewPeer := false;
        }
        if isNewPeer {
          topRatedCache := Put(topRatedCache, peer, DEFAULT_RATING, drops[i]);
          top := top + [peer];
        }
      }
      assert peers[..|peers|] == peers && drops[..|peers|] == drops;
    }

    /** Only the top tier when it is large enough, else a permutation of the whole list with
        the top tier first. */
    method GetTopRatedPeersFromList(peers: seq<PeerID>, minExpected: int, drops: seq<set<PeerID>>)
      returns (r: seq<PeerID>)
      requires Valid(Contents()) && |drops| == |peers|
      modifies this`topRatedCache
      ensures Valid(Contents()) && Contents() == Apply(old(Contents()), Query(peers, minExpected, drops))
      ensures minExpected < 1 || peers == [] ==> r == []
      ensures minExpected >= 1 && |TopRated(peers, badRatedCache)| >= minExpected ==> r == TopRated(peers, badRatedCache)
      ensures minExpected >= 1 && |TopRated(peers, badRatedCache)| < minExpected ==>
                r == TopRated(peers, badRatedCache) + BadRated(peers, badRatedCache) && multiset(r) == multiset(peers)
    {
      if minExpected < MIN_NUM_OF_PEERS || |peers| == 0 {
        return [];
      }
      TiersPartition(peers, badRatedCache);
      var bad;
      r, bad := SplitPeersByTiers(peers, drops);
      if |r| < minExpected {
        r := r + bad;
      }
    }
  }
}
