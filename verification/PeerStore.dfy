/** The PeerStore of src/network/peer_store.js: a bounded store that evicts its worst peer for a better one. */
module PeerStore {
  import opened Wrappers

  datatype Peer = Peer(id: Id, reputation: real)

  predicate Holds(peers: seq<Peer>, id: Id) {
    exists i :: 0 <= i < |peers| && peers[i].id == id
  }

  predicate DistinctIds(peers: seq<Peer>) {
    forall i, j :: 0 <= i < j < |peers| ==> peers[i].id != peers[j].id
  }

  /** The first index with the lowest reputation, as the reduce finds it. */
  predicate IsFirstLowest(peers: seq<Peer>, k: nat) {
    && k < |peers|
    && (forall i :: 0 <= i < |peers| ==> peers[k].reputation <= peers[i].reputation)
    && (forall i :: 0 <= i < k ==> peers[k].reputation < peers[i].reputation)
  }

  function LowestIndex(peers: seq<Peer>): (k: nat)
    requires peers != []
    ensures IsFirstLowest(peers, k)
  {
    if |peers| == 1 then 0
    else
      var k := LowestIndex(peers[..|peers| - 1]);
      if peers[|peers| - 1].reputation < peers[k].reputation then |peers| - 1 else k
  }

  function Without(peers: seq<Peer>, k: nat): seq<Peer>
    requires k < |peers|
  {
    peers[..k] + peers[k + 1..]
  }

  /** addPeer on values. */
  function Offer(peers: seq<Peer>, maxPeers: nat, p: Peer): seq<Peer> {
    if !p.id.Id? || Holds(peers, p.id) then peers
    else if |peers| < maxPeers then peers + [p]
    else if peers != [] && peers[LowestIndex(peers)].reputation < p.reputation
    then Without(peers, LowestIndex(peers)) + [p]
    else peers
  }

  class Store {
    const maxPeers: nat
    /** The peers Map, as the sequence of its values in insertion order. */
    var peers: seq<Peer>

    constructor (maxPeers: nat)
      ensures peers == [] && this.maxPeers == maxPeers
    {
      this.maxPeers, peers := maxPeers, [];
    }

    method GetLowestReputationPeer() returns (lowest: Option<Peer>)
      ensures lowest == if peers == [] then None else Some(peers[LowestIndex(peers)])
    {
      if |peers| == 0 {
        return None;
      }
      var best := peers[0];
      for i := 1 to |peers|
        invariant best == peers[LowestIndex(peers[..i])]
      {
        assert peers[..i + 1][..i] == peers[..i];
        if peers[i].reputation < best.reputation {
          best := peers[i];
        }
      }
      assert peers[..|peers|] == peers;
      return Some(best);
    }

    method RemovePeer(id: Id) returns (removed: bool)
      requires DistinctIds(peers)
      modifies this`peers
      ensures DistinctIds(peers)
      ensures removed == (id.Id? && Holds(old(peers), id))
      ensures !removed ==> peers == old(peers)
      ensures removed ==> exists k :: 0 <= k < |old(peers)| && old(peers)[k].id == id && peers == Without(old(peers), k)
    {
      if !id.Id? {
        return false;
      }
      for i := 0 to |peers|
        invariant forall j :: 0 <= j < i ==> peers[j].id != id
      {
        if peers[i].id == id {
          peers := peers[..i] + peers[i + 1..];
          return true;
        }
      }
      return false;
    }

    /** Adds a new peer while there is room, or in place of the first-lowest peer if it is strictly better. */
    method AddPeer(peer: Option<Peer>) returns (added: bool)
      requires DistinctIds(peers)
      requires forall i :: 0 <= i < |peers| ==> peers[i].id.Id?
      modifies this`peers
      ensures DistinctIds(peers)
      ensures forall i :: 0 <= i < |peers| ==> peers[i].id.Id?
      ensures peers == if peer.Some? then Offer(old(peers), maxPeers, peer.value) else old(peers)
      ensures added <==> peers != old(peers)
    {
      if peer.None? || !peer.value.id.Id? {
        return false;
      }
      var p := peer.value;
      if Holds(peers, p.id) {
        return false;
      }
      if |peers| >= maxPeers {
        var lowest := GetLowestReputationPeer();
        if lowest.Some? && lowest.value.reputation < p.reputation {
          var k := LowestIndex(peers);
          var removed := RemovePeer(lowest.value.id);
          assert removed && peers == Without(old(peers), k);
        } else {
          return false;
        }
      }
      peers := peers + [p];
      assert peers[|peers| - 1] == p;
      return true;
    }
  }

  // -------------------------------------------------------- streaming best-k

  function Reputations(peers: seq<Peer>): multiset<real> {
    if peers == [] then multiset{} else Reputations(peers[..|peers| - 1]) + multiset{peers[|peers| - 1].reputation}
  }

  /** The store after a sequence of offers. */
  function AfterOffers(maxPeers: nat, offers: seq<Peer>): seq<Peer> {
    if offers == [] then []
    else Offer(AfterOffers(maxPeers, offers[..|offers| - 1]), maxPeers, offers[|offers| - 1])
  }

  /** All of best rank at least as high as all of the rest. */
  predicate Best(all: multiset<real>, best: multiset<real>) {
    && best <= all
    && forall x, y :: x in best && y in all - best ==> y <= x
  }

  lemma SmallerOfEqualSize(s: multiset<real>, t: multiset<real>)
    requires t <= s && |t| == |s|
    ensures s == t
  {
    assert s == t + (s - t);
    assert |s - t| == 0;
  }

  /** Two best parts cannot each hold something the other lacks, unless the two are equal. */
  lemma Cross(all: multiset<real>, s: multiset<real>, t: multiset<real>, x: real, y: real)
    requires Best(all, s) && Best(all, t) && s[x] > t[x] && t[y] > s[y]
    ensures x == y
  {
    assert x in s && x in all - t;
    assert y in t && y in all - s;
  }

  /** A multiset has only one best part of a given size. */
  lemma BestIsUnique(all: multiset<real>, s: multiset<real>, t: multiset<real>)
    requires Best(all, s) && Best(all, t) && |s| == |t|
    ensures s == t
  {
    if y :| y in t && t[y] > s[y] {
      forall x ensures s[x] <= t[x] {
        if s[x] > t[x] {
          Cross(all, s, t, x, y);
        }
      }
      SmallerOfEqualSize(t, s);
    } else {
      forall z ensures t[z] <= s[z] {
        if z !in t {}
      }
      SmallerOfEqualSize(s, t);
    }
  }

  // The reference: sort everything in descending order and keep the first k.

  function InsertDown(x: real, s: seq<real>): (r: seq<real>)
    ensures multiset(r) == multiset(s) + multiset{x}
  {
    if s == [] then [x]
    else if s[0] <= x then [x] + s
    else
      assert s == [s[0]] + s[1..];
      [s[0]] + InsertDown(x, s[1..])
  }

  predicate Descending(s: seq<real>) {
    forall i, j :: 0 <= i < j < |s| ==> s[i] >= s[j]
  }

  lemma MembersOfInsert(x: real, s: seq<real>, r: seq<real>)
    requires multiset(r) == multiset(s) + multiset{x}
    ensures forall j :: 0 <= j < |r| ==> r[j] == x || r[j] in s
  {
    forall j | 0 <= j < |r| ensures r[j] == x || r[j] in s {
      assert r[j] in multiset(r);
    }
  }

  lemma {:induction false} InsertDownDescends(x: real, s: seq<real>)
    requires Descending(s)
    ensures Descending(InsertDown(x, s))
  {
    if s != [] && s[0] > x {
      var r := InsertDown(x, s[1..]);
      InsertDownDescends(x, s[1..]);
      MembersOfInsert(x, s[1..], r);
    }
  }

  function Sorted(peers: seq<Peer>): (r: seq<real>)
    ensures multiset(r) == Reputations(peers)
  {
    if peers == [] then [] else InsertDown(peers[|peers| - 1].reputation, Sorted(peers[..|peers| - 1]))
  }

  lemma {:induction false} SortedDescends(peers: seq<Peer>)
    ensures Descending(Sorted(peers)) && |Sorted(peers)| == |peers|
  {
    if peers != [] {
      SortedDescends(peers[..|peers| - 1]);
      InsertDownDescends(peers[|peers| - 1].reputation, Sorted(peers[..|peers| - 1]));
      assert |multiset(Sorted(peers))| == |Sorted(peers)|;
    }
  }

  lemma FirstKAreBest(s: seq<real>, k: nat)
    requires Descending(s) && k <= |s|
    ensures Best(multiset(s), multiset(s[..k]))
  {
    assert s == s[..k] + s[k..];
    assert multiset(s) - multiset(s[..k]) == multiset(s[k..]);
    forall x, y | x in multiset(s[..k]) && y in multiset(s[k..]) ensures y <= x {
      assert x in s[..k] && y in s[k..];
    }
  }

  // ---------------------------------------------- what one offer does to ranks

  lemma {:induction false} ReputationsSplit(p: seq<Peer>, q: seq<Peer>)
    ensures Reputations(p + q) == Reputations(p) + Reputations(q)
  {
    if q == [] {
      assert p + q == p;
    } else {
      assert (p + q)[..|p + q| - 1] == p + q[..|q| - 1];
      ReputationsSplit(p, q[..|q| - 1]);
    }
  }

  lemma ReputationsOfOne(p: Peer)
    ensures Reputations([p]) == multiset{p.reputation}
  {
    assert [p][..0] == [];
  }

  lemma ReputationsJoin(a: seq<Peer>, p: Peer, b: seq<Peer>)
    ensures Reputations(a + [p] + b) == Reputations(a + b) + multiset{p.reputation}
  {
    hide Reputations;
    ReputationsSplit(a + [p], b);
    ReputationsSplit(a, [p]);
    ReputationsSplit(a, b);
    ReputationsOfOne(p);
  }

  lemma SplitAt<T>(s: seq<T>, k: nat)
    requires k < |s|
    ensures s == s[..k] + [s[k]] + s[k + 1..]
  {
  }

  lemma ReputationsWithout(peers: seq<Peer>, k: nat)
    requires k < |peers|
    ensures Reputations(peers) == Reputations(Without(peers, k)) + multiset{peers[k].reputation}
  {
    hide Reputations;
    SplitAt(peers, k);
    ReputationsJoin(peers[..k], peers[k], peers[k + 1..]);
  }

  lemma {:induction false} ReputationsBounded(peers: seq<Peer>, low: real)
    requires forall i :: 0 <= i < |peers| ==> low <= peers[i].reputation
    ensures forall x :: x in Reputations(peers) ==> low <= x
    ensures |Reputations(peers)| == |peers|
  {
    if peers != [] {
      ReputationsBounded(peers[..|peers| - 1], low);
    }
  }

  lemma {:induction false} SizeOfReputations(peers: seq<Peer>)
    ensures |Reputations(peers)| == |peers|
  {
    if peers != [] {
      SizeOfReputations(peers[..|peers| - 1]);
    }
  }

  /** Replacing the lowest by something better keeps the best part; so does refusing something no better. */
  lemma BestStep(all: multiset<real>, best: multiset<real>, low: real, x: real)
    requires Best(all, best) && low in best && forall y :: y in best ==> low <= y
    ensures x <= low ==> Best(all + multiset{x}, best)
    ensures low < x ==> Best(all + multiset{x}, best - multiset{low} + multiset{x})
  {
    var all' := all + multiset{x};
    assert all' - best == (all - best) + multiset{x};
    if low < x {
      var best' := best - multiset{low} + multiset{x};
      assert all' - best' == (all - best) + multiset{low};
    }
  }

  predicate FreshIds(offers: seq<Peer>) {
    DistinctIds(offers) && forall i :: 0 <= i < |offers| ==> offers[i].id.Id?
  }

  /** A store holds only peers that were offered. */
  lemma {:induction false} StoredWereOffered(maxPeers: nat, offers: seq<Peer>)
    ensures forall p :: p in AfterOffers(maxPeers, offers) ==> p in offers
  {
    if offers != [] {
      StoredWereOffered(maxPeers, offers[..|offers| - 1]);
    }
  }

  lemma NewIdIsNotHeld(maxPeers: nat, offers: seq<Peer>)
    requires offers != [] && FreshIds(offers)
    ensures !Holds(AfterOffers(maxPeers, offers[..|offers| - 1]), offers[|offers| - 1].id)
  {
    var before := offers[..|offers| - 1];
    StoredWereOffered(maxPeers, before);
    var held := AfterOffers(maxPeers, before);
    forall i | 0 <= i < |held| ensures held[i].id != offers[|offers| - 1].id {
      assert held[i] in before;
    }
  }

  lemma ReputationsAdd(held: seq<Peer>, p: Peer)
    ensures Reputations(held + [p]) == Reputations(held) + multiset{p.reputation}
  {
    ReputationsSplit(held, [p]);
    ReputationsOfOne(p);
  }

  lemma FullOffer(held: seq<Peer>, p: Peer, all: multiset<real>)
    requires held != [] && Best(all, Reputations(held))
    ensures var k := LowestIndex(held);
            Best(all + multiset{p.reputation},
                 Reputations(if held[k].reputation < p.reputation then Without(held, k) + [p] else held))
  {
    hide Reputations, Best, Without;
    var k := LowestIndex(held);
    ReputationsBounded(held, held[k].reputation);
    ReputationsWithout(held, k);
    ReputationsAdd(Without(held, k), p);
    BestStep(all, Reputations(held), held[k].reputation, p.reputation);
    assert Reputations(held) - multiset{held[k].reputation} == Reputations(Without(held, k));
  }

  lemma NothingIsBest(all: multiset<real>)
    ensures Best(all, Reputations([]))
  {
  }

  lemma RoomOffer(held: seq<Peer>, p: Peer, all: multiset<real>)
    requires Best(all, Reputations(held)) && |all| == |held|
    ensures Best(all + multiset{p.reputation}, Reputations(held + [p]))
  {
    SizeOfReputations(held);
    SmallerOfEqualSize(all, Reputations(held));
    ReputationsAdd(held, p);
  }

  lemma OfferStep(held: seq<Peer>, maxPeers: nat, p: Peer, all: multiset<real>)
    requires p.id.Id? && !Holds(held, p.id)
    requires Best(all, Reputations(held)) && |held| == if |all| < maxPeers then |all| else maxPeers
    ensures var next := Offer(held, maxPeers, p);
            && Best(all + multiset{p.reputation}, Reputations(next))
            && |next| == if |all| + 1 < maxPeers then |all| + 1 else maxPeers
  {
    hide Reputations, Best;
    if |held| < maxPeers {
      RoomOffer(held, p, all);
    } else if held == [] {
      NothingIsBest(all + multiset{p.reputation});
    } else {
      FullOffer(held, p, all);
    }
  }

  lemma {:induction false} StoreKeepsBest(maxPeers: nat, offers: seq<Peer>)
    requires FreshIds(offers)
    ensures Best(Reputations(offers), Reputations(AfterOffers(maxPeers, offers)))
    ensures |AfterOffers(maxPeers, offers)| == if |offers| < maxPeers then |offers| else maxPeers
  {
    SizeOfReputations(offers);
    if offers != [] {
      var before := offers[..|offers| - 1];
      StoreKeepsBest(maxPeers, before);
      SizeOfReputations(before);
      NewIdIsNotHeld(maxPeers, offers);
      OfferStep(AfterOffers(maxPeers, before), maxPeers, offers[|offers| - 1], Reputations(before));
    }
  }

  /** After any sequence of offers of new peers, the stored reputations are exactly the highest of all those offered. */
  lemma StreamingBestK(maxPeers: nat, offers: seq<Peer>)
    requires FreshIds(offers)
    ensures var k := if |offers| < maxPeers then |offers| else maxPeers;
            k <= |Sorted(offers)| && Reputations(AfterOffers(maxPeers, offers)) == multiset(Sorted(offers)[..k])
  {
    var k := if |offers| < maxPeers then |offers| else maxPeers;
    StoreKeepsBest(maxPeers, offers);
    SizeOfReputations(AfterOffers(maxPeers, offers));
    SortedDescends(offers);
    FirstKAreBest(Sorted(offers), k);
    BestIsUnique(Reputations(offers), Reputations(AfterOffers(maxPeers, offers)), multiset(Sorted(offers)[..k]));
  }
}
