// One bucket of the routing table: a bounded list that never evicts.
module KBuckets {
  import opened Peers

  // The list after its owner `self` hears from `p`: a known contact moves to the front with its old
  // record, a new one is appended while there is room. A full list ignores a newcomer, but is left
  // reversed when its last entry is the owner itself.
  function Touched(ps: seq<Peer>, p: Peer, k: nat, self: nat): seq<Peer>
    requires k > 0
  {
    if p.nodeId in Ids(ps) then [ps[IndexOf(ps, p.nodeId)]] + Without(ps, p.nodeId)
    else if |ps| < k then ps + [p]
    else if ps[|ps| - 1].nodeId == self then Reverse(ps)
    else ps
  }

  // The contact pinged in passing: the head of a full list met by a newcomer.
  function PingTarget(ps: seq<Peer>, p: Peer, k: nat, self: nat): Option<Peer>
    requires k > 0
  {
    if p.nodeId in Ids(ps) || |ps| < k || ps[|ps| - 1].nodeId == self then None else Some(ps[0])
  }

  // A newcomer meets a full list whose last entry is not the owner: the case in which somebody is pinged.
  predicate TurnsAway(ps: seq<Peer>, p: Peer, k: nat, self: nat)
    requires k > 0
  {
    p.nodeId !in Ids(ps) && |ps| >= k && ps[|ps| - 1].nodeId != self
  }

  // The one pinged is the head of the list, in that case and in no other.
  lemma PingsTheHead(ps: seq<Peer>, p: Peer, k: nat, self: nat)
    requires k > 0
    ensures PingTarget(ps, p, k, self) == if TurnsAway(ps, p, k, self) then Some(ps[0]) else None
  {
  }

  // The list after an update, path by path.
  lemma TouchedPaths(ps: seq<Peer>, p: Peer, k: nat, self: nat)
    requires k > 0 && DistinctIds(ps)
    ensures var r := Touched(ps, p, k, self);
            && (p.nodeId in Ids(ps) ==> var i := IndexOf(ps, p.nodeId); r == [ps[i]] + ps[..i] + ps[i + 1..])
            && (p.nodeId !in Ids(ps) && |ps| < k ==> r == ps + [p])
            && (p.nodeId !in Ids(ps) && |ps| >= k && ps[|ps| - 1].nodeId == self ==>
                  |r| == |ps| && forall i | 0 <= i < |ps| :: r[i] == ps[|ps| - 1 - i])
            && (TurnsAway(ps, p, k, self) ==> r == ps)
  {
    if p.nodeId in Ids(ps) {
      TouchedFront(ps, p, k, self);
    }
  }

  predicate Admits(ps: seq<Peer>, p: Peer, k: nat) {
    p.nodeId !in Ids(ps) && |ps| < k
  }

  // Whatever path is taken, the bucket keeps its records and gains at most the newcomer.
  lemma TouchedKeepsRecords(ps: seq<Peer>, p: Peer, k: nat, self: nat)
    requires k > 0 && DistinctIds(ps)
    ensures multiset(Touched(ps, p, k, self)) == multiset(ps) + (if Admits(ps, p, k) then multiset{p} else multiset{})
    ensures DistinctIds(Touched(ps, p, k, self))
    ensures |ps| <= k ==> |Touched(ps, p, k, self)| <= k
  {
    var r := Touched(ps, p, k, self);
    if p.nodeId in Ids(ps) {
      WithoutDistinct(ps, p.nodeId);
      IdsFromMultiset(ps, r);
    } else if |ps| >= k {
      ReverseMultiset(ps);
      IdsFromMultiset(ps, r);
    } else {
      forall i | 0 <= i < |ps|
        ensures ps[i].nodeId != p.nodeId
      {
        assert ps[i] in ps;
      }
    }
  }

  lemma TouchedIds(ps: seq<Peer>, p: Peer, k: nat, self: nat)
    requires k > 0 && DistinctIds(ps)
    ensures var r := Touched(ps, p, k, self);
            && Ids(r) == Ids(ps) + (if Admits(ps, p, k) then {p.nodeId} else {})
            && |r| == |ps| + (if Admits(ps, p, k) then 1 else 0)
            && (forall q | q in r :: q in ps || q == p)
            && (forall q | q in ps :: q in r)
            && (p.nodeId in Ids(r) || |r| >= k)
  {
    var r := Touched(ps, p, k, self);
    TouchedKeepsRecords(ps, p, k, self);
    assert forall q :: q in r <==> q in multiset(r);
    assert forall q :: q in ps <==> q in multiset(ps);
    assert |multiset(r)| == |r| && |multiset(ps)| == |ps|;
  }

  // A known contact is found at the front afterwards, and the others keep their order behind it.
  lemma TouchedFront(ps: seq<Peer>, p: Peer, k: nat, self: nat)
    requires k > 0 && DistinctIds(ps) && p.nodeId in Ids(ps)
    ensures var r, i := Touched(ps, p, k, self), IndexOf(ps, p.nodeId);
            r == [ps[i]] + ps[..i] + ps[i + 1..]
  {
    WithoutSplits(ps, p.nodeId);
  }

  lemma WithoutSplits(ps: seq<Peer>, id: nat)
    requires DistinctIds(ps) && id in Ids(ps)
    ensures var i := IndexOf(ps, id); Without(ps, id) == ps[..i] + ps[i + 1..]
  {
    var i := IndexOf(ps, id);
    assert ps == ps[..i] + ([ps[i]] + ps[i + 1..]);
    WithoutMiddle(ps[..i], ps[i], ps[i + 1..]);
  }

  lemma WithoutMiddle(before: seq<Peer>, p: Peer, after: seq<Peer>)
    requires DistinctIds(before + ([p] + after))
    ensures Without(before + ([p] + after), p.nodeId) == before + after
  {
    FrontNotRepeated(before, [p] + after);
    ConsIds(p, after);
    var all := before + ([p] + after);
    assert all[|before|] == p;
    forall q | q in before
      ensures q.nodeId != p.nodeId
    {
      var j :| 0 <= j < |before| && before[j] == q;
      assert all[j] == q;
    }
    WithoutConcat(before, [p] + after, p.nodeId);
    assert ([p] + after)[1..] == after;
    WithoutDistinct(before, p.nodeId);
    WithoutDistinct(after, p.nodeId);
  }

  lemma FrontOnce(ps: seq<Peer>, current: Peer)
    requires DistinctIds(ps) && current in ps
    ensures ps[IndexOf(ps, current.nodeId)] == current
    ensures multiset([current] + Without(ps, current.nodeId)) == multiset(ps)
    ensures DistinctIds([current] + Without(ps, current.nodeId)) && |[current] + Without(ps, current.nodeId)| == |ps|
  {
    var r := [current] + Without(ps, current.nodeId);
    var j :| 0 <= j < |ps| && ps[j] == current;
    WithoutDistinct(ps, current.nodeId);
    IdsFromMultiset(ps, r);
  }

  function TouchedAll(ps: seq<Peer>, contacts: seq<Peer>, k: nat, self: nat): seq<Peer>
    requires k > 0
    decreases |contacts|
  {
    if contacts == [] then ps else TouchedAll(Touched(ps, contacts[0], k, self), contacts[1..], k, self)
  }

  // A stranger leaves a full bucket's ids, and turns the owner away from the end.
  lemma StrangerAtFull(ps: seq<Peer>, p: Peer, k: nat, self: nat)
    requires k > 0 && DistinctIds(ps) && |ps| >= k && p.nodeId !in Ids(ps)
    ensures var r, last := Touched(ps, p, k, self), |ps| - 1;
            && |r| == |ps| && DistinctIds(r) && Ids(r) == Ids(ps)
            && r == (if ps[last].nodeId == self then Reverse(ps) else ps)
            && (r[last].nodeId == self ==> Reverse(ps) == ps)
  {
    ReverseMultiset(ps);
    IdsFromMultiset(ps, Reverse(ps));
    assert |ps| == 1 ==> Reverse(ps) == ps;
  }

  // Any number of strangers reverse a full bucket with its owner last exactly once between them, and leave
  // every other full bucket as it is.
  lemma {:induction false} ReversalHappensOnce(ps: seq<Peer>, strangers: seq<Peer>, k: nat, self: nat)
    requires k > 0 && DistinctIds(ps) && |ps| >= k && strangers != [] && forall q | q in strangers :: q.nodeId !in Ids(ps)
    ensures TouchedAll(ps, strangers, k, self) == if ps[|ps| - 1].nodeId == self then Reverse(ps) else ps
    decreases |strangers|
  {
    var r := Touched(ps, strangers[0], k, self);
    StrangerAtFull(ps, strangers[0], k, self);
    if |strangers| == 1 {
      assert strangers[1..] == [];
    } else {
      ReversalHappensOnce(r, strangers[1..], k, self);
    }
  }

  class KBucket {
    var nodes: seq<Peer>
    const bucketId: nat
    const self: nat
    const k: nat

    ghost predicate Valid()
      reads this
    {
      k > 0 && DistinctIds(nodes) && |nodes| <= k
    }

    constructor (bucketId: nat, self: nat, k: nat)
      requires k > 0
      ensures Valid() && nodes == [] && this.bucketId == bucketId && this.self == self && this.k == k
    {
      this.bucketId, this.self, this.k := bucketId, self, k;
      nodes := [];
    }

    method RemoveNode(peer: Peer)
      requires Valid()
      modifies this`nodes
      ensures Valid() && nodes == Without(old(nodes), peer.nodeId)
      ensures Ids(nodes) == Ids(old(nodes)) - {peer.nodeId}
    {
      WithoutDistinct(nodes, peer.nodeId);
      WithoutShorter(nodes, peer.nodeId);
      nodes := Without(nodes, peer.nodeId);
    }

    method MoveToFront(current: Peer)
      requires Valid() && current in nodes
      modifies this`nodes
      ensures Valid() && nodes != [] && nodes[0] == current && nodes[1..] == Without(old(nodes), current.nodeId)
      ensures multiset(nodes) == multiset(old(nodes))
    {
      FrontOnce(nodes, current);
      nodes := [current] + Without(nodes, current.nodeId);
    }

    // `Array.prototype.find` on the id.
    method Find(id: nat) returns (current: Option<Peer>)
      ensures current == if id in Ids(nodes) then Some(nodes[IndexOf(nodes, id)]) else None
    {
      var i := 0;
      while i < |nodes|
        invariant i <= |nodes|
        invariant forall j | 0 <= j < i :: nodes[j].nodeId != id
      {
        if nodes[i].nodeId == id {
          assert nodes[i] in nodes;
          return Some(nodes[i]);
        }
        i := i + 1;
      }
      return None;
    }

    method UpdateBucketNode(peer: Peer) returns (ping: Option<Peer>)
      requires Valid()
      modifies this`nodes
      ensures Valid()
      ensures nodes == Touched(old(nodes), peer, k, self)
      ensures ping == PingTarget(old(nodes), peer, k, self)
      ensures peer.nodeId in Ids(old(nodes)) ==>
                var i := IndexOf(old(nodes), peer.nodeId); nodes == [old(nodes)[i]] + old(nodes)[..i] + old(nodes)[i + 1..]
      ensures peer.nodeId !in Ids(old(nodes)) && |old(nodes)| < k ==> nodes == old(nodes) + [peer]
      ensures peer.nodeId !in Ids(old(nodes)) && |old(nodes)| >= k && old(nodes)[|old(nodes)| - 1].nodeId == self ==>
                |nodes| == |old(nodes)| && forall i | 0 <= i < |nodes| :: nodes[i] == old(nodes)[|nodes| - 1 - i]
      ensures peer.nodeId !in Ids(old(nodes)) && |old(nodes)| >= k && old(nodes)[|old(nodes)| - 1].nodeId != self ==>
                nodes == old(nodes) && ping == Some(old(nodes)[0])
      ensures peer.nodeId in Ids(old(nodes)) || |old(nodes)| < k || old(nodes)[|old(nodes)| - 1].nodeId == self ==> ping == None
    {
      TouchedKeepsRecords(nodes, peer, k, self);
      TouchedPaths(nodes, peer, k, self);
      PingsTheHead(nodes, peer, k, self);
      ping := Rearrange(peer);
    }

    method Rearrange(peer: Peer) returns (ping: Option<Peer>)
      requires Valid()
      modifies this`nodes
      ensures nodes == Touched(old(nodes), peer, k, self)
      ensures ping == PingTarget(old(nodes), peer, k, self)
    {
      var current := Find(peer.nodeId);
      if current.Some? {
        MoveToFront(current.value);
        return None;
      }
      if |nodes| < k {
        nodes := nodes + [peer];
        return None;
      }
      nodes := Reverse(nodes);
      if self == nodes[0].nodeId {
        return None;
      }
      nodes := Reverse(nodes);
      ReverseTwice(old(nodes));
      return Some(nodes[0]);
    }
  }
}
