// The two lookups of the routing table as functions of its contents, and where they agree.
module Lookups {
  import opened Numbers
  import opened Metric
  import opened Peers
  import opened Tables

  function Distance(p: Peer, key: nat): nat {
    Xor(p.nodeId, key)
  }

  // ----- findClosestNode -----

  predicate IsClosest(ps: seq<Peer>, target: nat, p: Peer) {
    p in ps && forall q | q in ps :: q == p || Distance(p, target) < Distance(q, target)
  }

  lemma ClosestIsUnique(ps: seq<Peer>, target: nat, p: Peer, q: Peer)
    requires IsClosest(ps, target, p) && IsClosest(ps, target, q)
    ensures p == q
  {
  }

  // Whatever the order of the buckets and of the peers in them, the answer is the same.
  lemma ClosestIgnoresOrder(t: Table, u: Table, target: nat, p: Peer, q: Peer)
    requires t.Ok() && u.Ok() && multiset(t.AllPeers()) == multiset(u.AllPeers())
    requires IsClosest(t.AllPeers(), target, p) && IsClosest(u.AllPeers(), target, q)
    ensures p == q
  {
    MembersFromMultiset(t.AllPeers(), u.AllPeers());
    MembersFromMultiset(u.AllPeers(), t.AllPeers());
    ClosestIsUnique(t.AllPeers(), target, p, q);
  }

  // The bucket number of an id, and -1 for the owner's own, which lies nearer than its bucket says.
  function ClassIn(t: Table, id: nat): int {
    Class(t.self, id, t.cfg.bits)
  }

  lemma StoredRanked(t: Table, target: nat, p: Peer, q: Peer)
    requires InKeySpace(t) && t.Stores(p) && t.Stores(q)
    requires ClassNearer(Xor(t.self, target), ClassIn(t, p.nodeId), ClassIn(t, q.nodeId))
    ensures Distance(p, target) < Distance(q, target)
  {
    ClassesRanked(t.self, target, p.nodeId, q.nodeId, t.cfg.bits);
  }

  // The class has its digit set in the distance from the owner to the target.
  predicate Towards(t: Table, target: nat, c: int) {
    c >= 0 && Bit(Xor(t.self, target), c)
  }

  // Where the nearest peer is: in the highest class towards the target that has a peer, and if there is
  // none, in the lowest class that has one. The target's own class comes before all others.
  lemma ClosestBucket(t: Table, target: nat, p: Peer)
    requires t.Ok() && InKeySpace(t) && IsClosest(t.AllPeers(), target, p)
    ensures var c := ClassIn(t, p.nodeId);
            && (forall q | t.Stores(q) && Towards(t, target, ClassIn(t, q.nodeId)) ::
                  Towards(t, target, c) && ClassIn(t, q.nodeId) <= c)
            && (forall q | t.Stores(q) && !Towards(t, target, c) :: c <= ClassIn(t, q.nodeId))
            && (forall q | t.Stores(q) && ClassIn(t, q.nodeId) == ClassIn(t, target) :: c == ClassIn(t, target))
  {
    AllPeersStored(t);
    var c := ClassIn(t, p.nodeId);
    forall q | t.Stores(q)
      ensures !ClassNearer(Xor(t.self, target), ClassIn(t, q.nodeId), c)
    {
      if ClassNearer(Xor(t.self, target), ClassIn(t, q.nodeId), c) {
        StoredRanked(t, target, q, p);
      }
    }
    if c != ClassIn(t, target) {
      OwnClassNearest(t.self, target, t.cfg.bits, c);
    }
  }

  // ----- findNode -----

  function Prefix<T>(s: seq<T>, n: nat): seq<T> {
    if |s| <= n then s else s[..n]
  }

  // Occupied bucket numbers in [lo, hi), lowest first.
  function Above(t: Table, lo: nat, hi: nat): seq<nat>
    decreases hi - lo
  {
    if lo >= hi then [] else (if lo in t.buckets then [lo] else []) + Above(t, lo + 1, hi)
  }

  // Occupied bucket numbers below hi, highest first.
  function Below(t: Table, hi: nat): seq<nat> {
    if hi == 0 then [] else (if hi - 1 in t.buckets then [hi - 1] else []) + Below(t, hi - 1)
  }

  // The candidates in the buckets `bs`, in scan order.
  function Candidates(t: Table, key: nat, bs: seq<nat>): seq<Peer> {
    Without(Gather(bs, t.buckets), key)
  }

  function Ups(t: Table, key: nat): seq<nat> {
    Above(t, t.Slot(key) + 1, t.cfg.hashSize)
  }

  function Downs(t: Table, key: nat): seq<nat> {
    Below(t, t.Slot(key))
  }

  function Nth(s: seq<nat>, i: nat): seq<nat> {
    if i < |s| then [s[i]] else []
  }

  // The buckets visited by the end of round j: the key's own, then one up and one down in every round.
  function Reached(t: Table, key: nat, j: nat): seq<nat> {
    if j == 0 then [t.Slot(key)] else Reached(t, key, j - 1) + Nth(Ups(t, key), j - 1) + Nth(Downs(t, key), j - 1)
  }

  // How many peers are collected by then.
  function Size(t: Table, key: nat, j: nat): nat {
    Min(t.cfg.bits, |Candidates(t, key, Reached(t, key, j))|)
  }

  // Both directions are exhausted after this many rounds.
  function LastRound(t: Table, key: nat): nat {
    var ups, downs := |Ups(t, key)|, |Downs(t, key)|;
    if ups < downs then downs else ups
  }

  // What is collected by then.
  function Met(t: Table, key: nat, j: nat): seq<Peer> {
    Prefix(Candidates(t, key, Reached(t, key, j)), t.cfg.bits)
  }

  // The scan stops at the end of the first round that has exactly `count` peers, or when both directions are
  // exhausted.
  function StopFrom(t: Table, key: nat, count: nat, j: nat): nat
    decreases LastRound(t, key) - j
  {
    if Size(t, key, j) == count || j >= LastRound(t, key) then j else StopFrom(t, key, count, j + 1)
  }

  function Collected(t: Table, key: nat, count: nat): seq<Peer> {
    Met(t, key, StopFrom(t, key, count, 0))
  }

  // The sort puts the farthest peer first.
  function Inserted(p: Peer, s: seq<Peer>, key: nat): seq<Peer> {
    if s == [] || Distance(p, key) >= Distance(s[0], key) then [p] + s
    else [s[0]] + Inserted(p, s[1..], key)
  }

  function FarFirst(s: seq<Peer>, key: nat): seq<Peer> {
    if s == [] then [] else Inserted(s[0], FarFirst(s[1..], key), key)
  }

  function FindNode(t: Table, key: nat, count: nat): seq<Peer> {
    FarFirst(Collected(t, key, count), key)
  }

  predicate StrictlyFarFirst(s: seq<Peer>, key: nat) {
    forall i, j | 0 <= i < j < |s| :: Distance(s[i], key) > Distance(s[j], key)
  }

  // ----- the sort -----

  lemma {:induction false} InsertedMembers(p: Peer, s: seq<Peer>, key: nat)
    ensures multiset(Inserted(p, s, key)) == multiset(s) + multiset{p}
  {
    if s != [] && Distance(p, key) < Distance(s[0], key) {
      InsertedMembers(p, s[1..], key);
      assert s == [s[0]] + s[1..];
    }
  }

  lemma {:induction false} FarFirstMembers(s: seq<Peer>, key: nat)
    ensures multiset(FarFirst(s, key)) == multiset(s)
  {
    if s != [] {
      FarFirstMembers(s[1..], key);
      InsertedMembers(s[0], FarFirst(s[1..], key), key);
      assert s == [s[0]] + s[1..];
    }
  }

  predicate Descending(s: seq<Peer>, key: nat) {
    forall i, j | 0 <= i < j < |s| :: Distance(s[i], key) >= Distance(s[j], key)
  }

  lemma {:induction false} InsertedDescending(p: Peer, s: seq<Peer>, key: nat)
    requires Descending(s, key)
    ensures Descending(Inserted(p, s, key), key)
  {
    if s != [] && Distance(p, key) < Distance(s[0], key) {
      var r := Inserted(p, s[1..], key);
      InsertedDescending(p, s[1..], key);
      InsertedMembers(p, s[1..], key);
      forall q | q in r
        ensures Distance(s[0], key) >= Distance(q, key)
      {
        assert q in multiset(r);
        assert q == p || q in s[1..];
      }
    }
  }

  lemma {:induction false} FarFirstDescending(s: seq<Peer>, key: nat)
    ensures Descending(FarFirst(s, key), key)
  {
    if s != [] {
      FarFirstDescending(s[1..], key);
      InsertedDescending(s[0], FarFirst(s[1..], key), key);
    }
  }

  // Different ids are at different distances, so the order is strict.
  lemma FarFirstStrict(s: seq<Peer>, key: nat)
    requires DistinctIds(s)
    ensures StrictlyFarFirst(FarFirst(s, key), key) && DistinctIds(FarFirst(s, key))
    ensures multiset(FarFirst(s, key)) == multiset(s) && |FarFirst(s, key)| == |s|
  {
    var r := FarFirst(s, key);
    FarFirstMembers(s, key);
    FarFirstDescending(s, key);
    IdsFromMultiset(s, r);
    forall i, j | 0 <= i < j < |r|
      ensures Distance(r[i], key) > Distance(r[j], key)
    {
      XorInjective(key, r[i].nodeId, r[j].nodeId);
    }
  }
}
