// The routing table object: a map of buckets that the operations open, update and scan in place.
module RoutingTables {
  import opened Metric
  import opened Peers
  import opened KBuckets
  import opened Tables
  import opened Lookups
  import opened Scans

  // What `findNode` sorts.
  datatype CloseNode = CloseNode(distance: nat, node: Peer)

  // The entries of the peers `ps`, in order.
  ghost predicate Entries(es: seq<CloseNode>, ps: seq<Peer>, key: nat) {
    |es| == |ps| && forall i | 0 <= i < |ps| :: es[i] == CloseNode(Distance(ps[i], key), ps[i])
  }

  // `Array.prototype.sort` with the larger distance first (section 23.1.3.30 of ECMA-262, 14th edition).
  function Insert(e: CloseNode, es: seq<CloseNode>): seq<CloseNode> {
    if es == [] || e.distance >= es[0].distance then [e] + es else [es[0]] + Insert(e, es[1..])
  }

  function Sort(es: seq<CloseNode>): seq<CloseNode> {
    if es == [] then [] else Insert(es[0], Sort(es[1..]))
  }

  lemma {:induction false} InsertMatches(es: seq<CloseNode>, ps: seq<Peer>, p: Peer, key: nat)
    requires Entries(es, ps, key)
    ensures Entries(Insert(CloseNode(Distance(p, key), p), es), Inserted(p, ps, key), key)
  {
    if es != [] {
      InsertMatches(es[1..], ps[1..], p, key);
    }
  }

  // Sorting the entries sorts the peers.
  lemma {:induction false} SortMatches(es: seq<CloseNode>, ps: seq<Peer>, key: nat)
    requires Entries(es, ps, key)
    ensures Entries(Sort(es), FarFirst(ps, key), key)
  {
    if es != [] {
      SortMatches(es[1..], ps[1..], key);
      InsertMatches(Sort(es[1..]), FarFirst(ps[1..], key), ps[0], key);
    }
  }

  class RoutingTable {
    const tableId: nat
    const cfg: Config
    var keys: seq<nat>  // insertion order of `buckets`
    var buckets: map<nat, KBucket>
    ghost var view: Table

    ghost predicate Valid()
      reads this, buckets.Values
    {
      Linked() && view.Ok()
    }

    // The bucket objects hold what `view` says.
    ghost predicate Linked()
      reads this, buckets.Values
    {
      LinkedBut({})
    }

    ghost predicate LinkedBut(dirty: set<nat>)
      reads this, buckets.Values
    {
      && view.cfg == cfg && view.self == tableId && view.keys == keys && view.buckets.Keys == buckets.Keys
      && (forall b | b in buckets :: buckets[b].bucketId == b && buckets[b].self == tableId && buckets[b].k == cfg.k)
      && forall b | b in buckets && b !in dirty :: buckets[b].nodes == view.buckets[b]
    }

    // Takes note of a change in one bucket.
    ghost method Note(b: nat)
      requires LinkedBut({b}) && b in buckets
      modifies this`view
      ensures Linked() && view == old(view).(buckets := old(view).buckets[b := buckets[b].nodes])
    {
      view := view.(buckets := view.buckets[b := buckets[b].nodes]);
    }

    constructor (tableId: nat, cfg: Config)
      ensures Valid() && view == EmptyTable(cfg, tableId)
    {
      this.tableId, this.cfg := tableId, cfg;
      keys, buckets := [], map[];
      view := EmptyTable(cfg, tableId);
    }

    method GetBucketIndex(targetId: nat) returns (b: nat)
      ensures b == BucketIndex(tableId, targetId, cfg.bits)
    {
      var xorResult := Xor(tableId, targetId);
      var i: int := cfg.bits - 1;
      while i >= 0
        invariant -1 <= i < cfg.bits
        invariant HighestBit(xorResult, cfg.bits) == HighestBit(xorResult, i + 1)
      {
        if Bit(xorResult, i) {
          return i;
        }
        i := i - 1;
      }
      return cfg.bits - 1;
    }

    method FindBucket(peer: Peer) returns (bucket: KBucket)
      requires Linked()
      modifies this`keys, this`buckets, this`view
      ensures Linked() && view == old(view).Opened(view.Slot(peer.nodeId))
      ensures view.Slot(peer.nodeId) in buckets && bucket == buckets[view.Slot(peer.nodeId)]
      ensures fresh(buckets.Values - old(buckets.Values)) && (bucket in old(buckets.Values) || fresh(bucket))
      ensures forall b | b in buckets && buckets[b] == bucket :: b == view.Slot(peer.nodeId)
      ensures var b := view.Slot(peer.nodeId);
              && keys == (if b in old(buckets) then old(keys) else old(keys) + [b])
              && (b !in old(buckets) ==> bucket.nodes == []) && buckets.Keys == old(buckets.Keys) + {b}
              && forall c | c in old(buckets) :: buckets[c] == old(buckets)[c]
    {
      var bucketIndex := GetBucketIndex(peer.nodeId);
      if bucketIndex !in buckets {
        bucket := new KBucket(bucketIndex, tableId, cfg.k);
        keys := keys + [bucketIndex];
        buckets := buckets[bucketIndex := bucket];
        view := view.Opened(bucketIndex);
      } else {
        bucket := buckets[bucketIndex];
      }
    }

    // Finds the contact's bucket and updates it; returns the target of the ping that a full bucket sends.
    method Update(c: Peer) returns (ping: Option<Peer>)
      requires Linked() && DistinctIds(view.Bucket(view.Slot(c.nodeId))) && |view.Bucket(view.Slot(c.nodeId))| <= cfg.k
      modifies this`keys, this`buckets, this`view, buckets.Values
      ensures Linked() && fresh(buckets.Values - old(buckets.Values))
      ensures view == old(view).Contacted(c)
      ensures ping == PingTarget(old(view).Bucket(old(view).Slot(c.nodeId)), c, cfg.k, tableId)
    {
      var bucket := FindBucket(c);
      assert bucket.nodes == old(view).Bucket(view.Slot(c.nodeId));
      ping := bucket.UpdateBucketNode(c);
      Note(view.Slot(c.nodeId));
    }

    // Returns the targets of all the pings sent.
    method UpdateTables(contacts: seq<Peer>) returns (pings: seq<Peer>)
      requires Valid()
      modifies this`keys, this`buckets, this`view, buckets.Values
      ensures Valid() && fresh(buckets.Values - old(buckets.Values))
      ensures view == old(view).ContactedAll(contacts)
      ensures pings == old(view).PingsOf(contacts)
    {
      var i := 0;
      pings := [];
      while i < |contacts|
        invariant i <= |contacts|
        invariant Valid() && fresh(buckets.Values - old(buckets.Values))
        invariant view == old(view).ContactedAll(contacts[..i])
        invariant pings == old(view).PingsOf(contacts[..i])
      {
        assert contacts[..i + 1][..i] == contacts[..i];
        BucketDistinct(view, view.Slot(contacts[i].nodeId));
        ContactedOk(view, contacts[i]);
        var ping := Update(contacts[i]);
        pings := pings + (if ping.Some? then [ping.value] else []);
        i := i + 1;
      }
      assert contacts[..i] == contacts;
    }

    // The routing table's part of `handleTcpDisconnet`.
    method HandleDisconnect(nodeId: nat, port: nat)
      requires Valid()
      modifies this`keys, this`buckets, this`view, buckets.Values
      ensures Valid() && fresh(buckets.Values - old(buckets.Values))
      ensures view == old(view).Disconnected(nodeId)
    {
      DisconnectedOk(view, nodeId);
      if tableId != nodeId {
        BucketDistinct(view, view.Slot(nodeId));
        Drop(Peer(nodeId, port));
      }
    }

    method Drop(peer: Peer)
      requires Linked() && peer.nodeId != tableId
      requires DistinctIds(view.Bucket(view.Slot(peer.nodeId))) && |view.Bucket(view.Slot(peer.nodeId))| <= cfg.k
      modifies this`keys, this`buckets, this`view, buckets.Values
      ensures Linked() && fresh(buckets.Values - old(buckets.Values))
      ensures view == old(view).Disconnected(peer.nodeId)
    {
      var bucket := FindBucket(peer);
      assert bucket.nodes == old(view).Bucket(view.Slot(peer.nodeId));
      bucket.RemoveNode(peer);
      Note(view.Slot(peer.nodeId));
    }

    method GetAllPeers() returns (peers: seq<Peer>)
      requires Valid()
      ensures peers == view.AllPeers()
    {
      peers := [];
      var i := 0;
      while i < |keys|
        invariant i <= |keys|
        invariant peers == Gather(keys[..i], view.buckets)
      {
        GatherNext(keys, i, view.buckets);
        assert keys[i] in keys;
        peers := peers + buckets[keys[i]].nodes;
        i := i + 1;
      }
      assert keys[..i] == keys;
    }

    method FindClosestNode(targetId: nat) returns (closestNode: Option<Peer>)
      requires Valid()
      ensures closestNode == None <==> view.AllPeers() == []
      ensures closestNode.Some? ==> IsClosest(view.AllPeers(), targetId, closestNode.value)
    {
      closestNode := None;
      var closestDistance := 0;
      var i := 0;
      while i < |keys|
        invariant i <= |keys|
        invariant SmallestSoFar(Gather(keys[..i], view.buckets), targetId, closestNode, closestDistance)
      {
        GatherNext(keys, i, view.buckets);
        assert keys[i] in keys;
        closestNode, closestDistance :=
          ScanBucket(buckets[keys[i]].nodes, targetId, closestNode, closestDistance, Gather(keys[..i], view.buckets));
        i := i + 1;
      }
      assert keys[..i] == keys;
      SmallestIsClosest(view, targetId, closestNode, closestDistance);
    }

    // The inner loop of `findClosestNode`, after the peers `seen` of earlier buckets.
    method ScanBucket(nodes: seq<Peer>, targetId: nat, from: Option<Peer>, fromDistance: nat, ghost seen: seq<Peer>)
      returns (closestNode: Option<Peer>, closestDistance: nat)
      requires SmallestSoFar(seen, targetId, from, fromDistance)
      ensures SmallestSoFar(seen + nodes, targetId, closestNode, closestDistance)
    {
      closestNode, closestDistance := from, fromDistance;
      var j := 0;
      assert seen + nodes[..0] == seen;
      while j < |nodes|
        invariant j <= |nodes|
        invariant SmallestSoFar(seen + nodes[..j], targetId, closestNode, closestDistance)
      {
        var distance := Distance(nodes[j], targetId);
        SmallestNext(seen + nodes[..j], targetId, closestNode, closestDistance, nodes[j]);
        assert seen + nodes[..j + 1] == seen + nodes[..j] + [nodes[j]];
        if closestNode.None? || distance < closestDistance {
          closestDistance := distance;
          closestNode := Some(nodes[j]);
        }
        j := j + 1;
      }
      assert nodes[..j] == nodes;
    }

    method AddNodes(key: nat, bucketIndex: nat, closestNodes: seq<CloseNode>, ghost acc: seq<Peer>)
      returns (r: seq<CloseNode>)
      requires Valid() && Entries(closestNodes, acc, key) && |acc| <= cfg.bits
      ensures Entries(r, Added(view, key, bucketIndex, acc), key)
    {
      r := closestNodes;
      ghost var got := acc;
      if bucketIndex !in buckets {
        return;
      }
      var nodes := buckets[bucketIndex].nodes;
      var i := 0;
      while i < |nodes|
        invariant i <= |nodes|
        invariant got == acc + Prefix(Without(nodes[..i], key), cfg.bits - |acc|) && Entries(r, got, key)
      {
        AddNext(nodes, i, key, cfg.bits - |acc|);
        if nodes[i].nodeId != key {
          if |r| == cfg.bits {
            return;
          }
          r := r + [CloseNode(Distance(nodes[i], key), nodes[i])];
          got := got + [nodes[i]];
        }
        i := i + 1;
      }
      assert nodes[..i] == nodes;
    }

    // One upward scan of a round: the next occupied bucket, if there is one.
    method ScanAbove(key: nat, from: nat, closestNodes: seq<CloseNode>, ghost acc: seq<Peer>)
      returns (aboveIndex: nat, r: seq<CloseNode>, ghost got: seq<Peer>)
      requires Valid() && Entries(closestNodes, acc, key) && |acc| <= cfg.bits && from <= cfg.hashSize
      ensures from <= aboveIndex <= cfg.hashSize && (from < cfg.hashSize ==> from < aboveIndex)
      ensures Entries(r, got, key) && |got| <= cfg.bits
      ensures got == AddedFirst(view, key, Above(view, from, cfg.hashSize), acc)
      ensures Above(view, aboveIndex, cfg.hashSize) == Rest(Above(view, from, cfg.hashSize))
    {
      aboveIndex, r, got := from, closestNodes, acc;
      while aboveIndex != cfg.hashSize
        invariant from <= aboveIndex <= cfg.hashSize
        invariant Above(view, aboveIndex, cfg.hashSize) == Above(view, from, cfg.hashSize)
        decreases cfg.hashSize - aboveIndex
      {
        if aboveIndex in buckets {
          r := AddNodes(key, aboveIndex, r, got);
          got := Added(view, key, aboveIndex, got);
          aboveIndex := aboveIndex + 1;
          return;
        }
        aboveIndex := aboveIndex + 1;
      }
    }

    // The downward scan of the same round.
    method ScanBelow(key: nat, from: int, closestNodes: seq<CloseNode>, ghost acc: seq<Peer>)
      returns (belowIndex: int, r: seq<CloseNode>, ghost got: seq<Peer>)
      requires Valid() && Entries(closestNodes, acc, key) && |acc| <= cfg.bits && -1 <= from
      ensures -1 <= belowIndex <= from && (from >= 0 ==> belowIndex < from)
      ensures Entries(r, got, key) && |got| <= cfg.bits
      ensures got == AddedFirst(view, key, Below(view, from + 1), acc)
      ensures Below(view, belowIndex + 1) == Rest(Below(view, from + 1))
    {
      belowIndex, r, got := from, closestNodes, acc;
      while belowIndex >= 0
        invariant -1 <= belowIndex <= from
        invariant Below(view, belowIndex + 1) == Below(view, from + 1)
        decreases belowIndex
      {
        if belowIndex in buckets {
          r := AddNodes(key, belowIndex, r, got);
          got := Added(view, key, belowIndex, got);
          belowIndex := belowIndex - 1;
          return;
        }
        belowIndex := belowIndex - 1;
      }
    }

    // One round: both scans.
    method ScanRound(key: nat, fromAbove: nat, fromBelow: int, closestNodes: seq<CloseNode>, ghost j: nat)
      returns (aboveIndex: nat, belowIndex: int, r: seq<CloseNode>)
      requires Valid() && Entries(closestNodes, Met(view, key, j), key) && fromAbove <= cfg.hashSize && -1 <= fromBelow
      requires Above(view, fromAbove, cfg.hashSize) == From(Ups(view, key), j)
      requires Below(view, fromBelow + 1) == From(Downs(view, key), j)
      ensures fromAbove <= aboveIndex <= cfg.hashSize && -1 <= belowIndex <= fromBelow
      ensures fromAbove < cfg.hashSize || fromBelow >= 0 ==> aboveIndex - belowIndex > fromAbove - fromBelow
      ensures Entries(r, Met(view, key, j + 1), key)
      ensures Above(view, aboveIndex, cfg.hashSize) == From(Ups(view, key), j + 1)
      ensures Below(view, belowIndex + 1) == From(Downs(view, key), j + 1)
    {
      FromNext(Ups(view, key), j);
      FromNext(Downs(view, key), j);
      RoundAdds(view, key, j);
      ghost var got;
      aboveIndex, r, got := ScanAbove(key, fromAbove, closestNodes, Met(view, key, j));
      belowIndex, r, got := ScanBelow(key, fromBelow, r, got);
    }

    // The two-way scan: what is collected before the sort.
    method Collect(key: nat, count: nat) returns (closestNodes: seq<CloseNode>)
      requires Valid()
      ensures Entries(closestNodes, Collected(view, key, count), key)
    {
      var bucketIndex := GetBucketIndex(key);
      closestNodes := AddNodes(key, bucketIndex, [], []);
      FirstBucket(view, key);
      var aboveIndex: nat := bucketIndex + 1;
      var belowIndex: int := bucketIndex as int - 1;
      ghost var j := 0;
      while true
        invariant aboveIndex <= cfg.hashSize && -1 <= belowIndex
        invariant Entries(closestNodes, Met(view, key, j), key) && NoStopBefore(view, key, count, j)
        invariant Above(view, aboveIndex, cfg.hashSize) == From(Ups(view, key), j)
        invariant Below(view, belowIndex + 1) == From(Downs(view, key), j)
        decreases cfg.hashSize - aboveIndex + belowIndex + 1
      {
        if |closestNodes| == count || (!(belowIndex >= 0) && !(aboveIndex != cfg.hashSize)) {
          MayStop(view, key, count, j);
          break;
        }
        NoStopYet(view, key, count, j);
        aboveIndex, belowIndex, closestNodes := ScanRound(key, aboveIndex, belowIndex, closestNodes, j);
        j := j + 1;
      }
    }

    method FindNode(key: nat, count: nat) returns (r: seq<Peer>)
      requires Valid()
      ensures r == Lookups.FindNode(view, key, count)
    {
      var closestNodes := Collect(key, count);
      SortMatches(closestNodes, Collected(view, key, count), key);
      closestNodes := Sort(closestNodes);
      r := seq(|closestNodes|, i requires 0 <= i < |closestNodes| => closestNodes[i].node);
    }
  }

  lemma GatherNext(ks: seq<nat>, i: nat, buckets: map<nat, seq<Peer>>)
    requires i < |ks|
    ensures Gather(ks[..i + 1], buckets) == Gather(ks[..i], buckets) + (if ks[i] in buckets then buckets[ks[i]] else [])
  {
    assert ks[..i + 1] == ks[..i] + [ks[i]];
    GatherConcat(ks[..i], [ks[i]], buckets);
  }

  lemma AddNext(nodes: seq<Peer>, i: nat, key: nat, room: nat)
    requires i < |nodes|
    ensures nodes[i].nodeId == key ==> Without(nodes[..i + 1], key) == Without(nodes[..i], key)
    ensures nodes[i].nodeId != key ==> Without(nodes[..i + 1], key) == Without(nodes[..i], key) + [nodes[i]]
    ensures |Without(nodes[..i], key)| >= room ==> Prefix(Without(nodes, key), room) == Prefix(Without(nodes[..i], key), room)
  {
    assert nodes[..i + 1] == nodes[..i] + [nodes[i]];
    WithoutConcat(nodes[..i], [nodes[i]], key);
    assert nodes == nodes[..i] + nodes[i..];
    WithoutConcat(nodes[..i], nodes[i..], key);
  }

  ghost predicate SmallestSoFar(seen: seq<Peer>, target: nat, p: Option<Peer>, d: nat) {
    match p
    case None => seen == []
    case Some(c) => c in seen && d == Distance(c, target) && forall q | q in seen :: d <= Distance(q, target)
  }

  lemma SmallestNext(seen: seq<Peer>, target: nat, p: Option<Peer>, d: nat, q: Peer)
    requires SmallestSoFar(seen, target, p, d)
    ensures if p.None? || Distance(q, target) < d then SmallestSoFar(seen + [q], target, Some(q), Distance(q, target))
            else SmallestSoFar(seen + [q], target, p, d)
  {
  }

  lemma SmallestIsClosest(t: Table, target: nat, p: Option<Peer>, d: nat)
    requires t.Ok() && SmallestSoFar(t.AllPeers(), target, p, d)
    ensures p == None <==> t.AllPeers() == []
    ensures p.Some? ==> IsClosest(t.AllPeers(), target, p.value)
  {
    GatherDistinct(t, t.keys);
    if p.Some? {
      forall q | q in t.AllPeers() && Distance(q, target) == d
        ensures q == p.value
      {
        XorInjective(target, q.nodeId, p.value.nodeId);
      }
    }
  }
}
